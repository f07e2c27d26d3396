/** The two metadata files vdsm-rs writes: `build_meta` in crates/vdsm-storage/src/volumes.rs and the
    text of `create_storage_domain` in crates/vdsm-storage/src/domain.rs. */
module VolumeMetadata {
  import opened Metadata
  import opened Numerals

  /** Decimal text of a number. */
  function Decimal(n: int): string
    decreases if n < 0 then 1 - n else n
  {
    if n < 0 then "-" + Decimal(-n)
    else if n < 10 then [('0' as int + n) as char]
    else Decimal(n / 10) + [('0' as int + n % 10) as char]
  }

  lemma {:induction false} DecimalVisible(n: int)
    ensures Visible(Decimal(n))
    decreases if n < 0 then 1 - n else n
  {
    if n < 0 {
      DecimalVisible(-n);
    } else if n >= 10 {
      DecimalVisible(n / 10);
    }
  }

  /** A printed number reads as that number. */
  lemma {:induction false} DecimalReads(n: int)
    ensures if n >= 0 then Reads(Decimal(n), n) else "-" <= Decimal(n) && Reads(Decimal(n)[1..], -n)
    decreases if n < 0 then 1 - n else n
  {
    if n < 0 {
      DecimalReads(-n);
      assert Decimal(n)[1..] == Decimal(-n);
    } else if n < 10 {
      AppendDigit("", ('0' as int + n) as char, n);
    } else {
      DecimalReads(n / 10);
      AppendDigit(Decimal(n / 10), ('0' as int + n % 10) as char, n);
    }
  }

  lemma DecimalClean(n: int)
    ensures Clean(Decimal(n))
  {
    DecimalVisible(n);
    VisibleClean(Decimal(n));
  }

  // ------------------------------------------------------------- distinct keys

  /** Keys of visible characters other than '='. */
  predicate PlainKey(k: string) {
    Visible(k) && '=' !in k
  }

  predicate PlainKeys(es: seq<Entry>) {
    forall i :: 0 <= i < |es| ==> PlainKey(es[i].key)
  }

  /** Keys listed in increasing order of some of their letters are distinct. */
  predicate Listed(es: seq<Entry>) {
    forall i :: 0 < i < |es| ==> Rank(es[i - 1].key) < Rank(es[i].key)
  }

  function Letter(k: string, i: nat): int {
    if i < |k| then k[i] as int else 0
  }

  function Rank(k: string): int {
    0x1000000 * Letter(k, 0) + 0x10000 * Letter(k, 1) + 0x100 * Letter(k, 4) + Letter(k, 5)
  }

  lemma {:induction false} ListedGrows(es: seq<Entry>, i: nat, j: nat)
    requires Listed(es) && i < j < |es|
    ensures Rank(es[i].key) < Rank(es[j].key)
    decreases j
  {
    if i < j - 1 {
      ListedGrows(es, i, j - 1);
    }
  }

  lemma ListedDistinct(es: seq<Entry>)
    requires Listed(es)
    ensures Distinct(es)
  {
    forall i, j | 0 <= i < j < |es| ensures es[i].key != es[j].key {
      ListedGrows(es, i, j);
    }
  }

  /** Printable keys in an order that makes them distinct. */
  predicate Chain(es: seq<Entry>) {
    PlainKeys(es) && Listed(es)
  }

  lemma ChainConcat(a: seq<Entry>, b: seq<Entry>)
    requires Chain(a) && Chain(b) && a != [] && b != []
    requires Rank(a[|a| - 1].key) < Rank(b[0].key)
    ensures Chain(a + b)
  {
  }

  lemma Chain4(a: Entry, b: Entry, c: Entry, d: Entry)
    requires PlainKey(a.key) && PlainKey(b.key) && PlainKey(c.key) && PlainKey(d.key)
    requires Rank(a.key) < Rank(b.key) < Rank(c.key) < Rank(d.key)
    ensures Chain([a, b, c, d])
  {
  }

  lemma Chain5(a: Entry, b: Entry, c: Entry, d: Entry, e: Entry)
    requires PlainKey(a.key) && PlainKey(b.key) && PlainKey(c.key) && PlainKey(d.key) && PlainKey(e.key)
    requires Rank(a.key) < Rank(b.key) < Rank(c.key) < Rank(d.key) < Rank(e.key)
    ensures Chain([a, b, c, d, e])
  {
  }

  lemma ChainGood(es: seq<Entry>)
    requires Chain(es)
    ensures GoodKeys(es) && Distinct(es)
  {
    ListedDistinct(es);
    forall i | 0 <= i < |es| ensures GoodKey(es[i].key) {
      VisibleClean(es[i].key);
    }
  }

  // -------------------------------------------------------------------- volumes

  datatype Volume = Volume(
    size: nat, ctime: nat, desc: string, diskType: string, sd: string, format: int, img: string, src: string,
    prealloc: int)

  function FormatText(v: int): string { if v == 4 then "COW" else "RAW" }

  function AllocText(v: int): string { if v == 1 then "PREALLOCATED" else "SPARSE" }

  function EarlyEntries(v: Volume): seq<Entry> {
    [Entry("CAP", Decimal(v.size)), Entry("CTIME", Decimal(v.ctime))]
  }

  function DescEntry(v: Volume): Entry {
    Entry("DESCRIPTION", v.desc)
  }

  function LateEntries(v: Volume): seq<Entry> {
    [Entry("DISKTYPE", v.diskType), Entry("DOMAIN", v.sd), Entry("FORMAT", FormatText(v.format)), Entry("GEN", "0")]
    + [Entry("IMAGE", v.img), Entry("LEGALITY", "LEGAL"), Entry("PUUID", v.src),
       Entry("TYPE", AllocText(v.prealloc)), Entry("VOLTYPE", "LEAF")]
  }

  function VolumeEntries(v: Volume): seq<Entry> {
    EarlyEntries(v) + [DescEntry(v)] + LateEntries(v)
  }

  const EOF: string := "EOF\n"

  /** `build_meta`. */
  function BuildMeta(v: Volume): string {
    Print(VolumeEntries(v)) + EOF
  }

  predicate CleanVolume(v: Volume) {
    Clean(v.desc) && CleanRest(v)
  }

  predicate CleanRest(v: Volume) {
    Clean(v.diskType) && Clean(v.sd) && Clean(v.img) && Clean(v.src)
  }

  lemma EofIsFooter()
    ensures Footer(EOF)
  {
    assert EOF == "EOF" + "\n" + "";
    LinesFirst("EOF", "");
  }

  lemma EarlyKeys()
    ensures PlainKey("CAP") && PlainKey("CTIME") && PlainKey("DESCRIPTION")
    ensures Rank("CAP") < Rank("CTIME") < Rank("DESCRIPTION") < Rank("DISKTYPE")
  {
  }

  lemma DiskKeys()
    ensures PlainKey("DISKTYPE") && PlainKey("DOMAIN") && PlainKey("FORMAT") && PlainKey("GEN")
    ensures Rank("DISKTYPE") < Rank("DOMAIN") < Rank("FORMAT") < Rank("GEN") < Rank("IMAGE")
  {
  }

  lemma ImageKeys()
    ensures PlainKey("IMAGE") && PlainKey("LEGALITY") && PlainKey("PUUID") && PlainKey("TYPE") && PlainKey("VOLTYPE")
    ensures Rank("IMAGE") < Rank("LEGALITY") < Rank("PUUID") < Rank("TYPE") < Rank("VOLTYPE")
  {
  }

  lemma LateChain(v: Volume)
    ensures Chain(LateEntries(v)) && LateEntries(v)[0].key == "DISKTYPE"
  {
    var es := LateEntries(v);
    DiskKeys();
    ImageKeys();
    Chain4(es[0], es[1], es[2], es[3]);
    Chain5(es[4], es[5], es[6], es[7], es[8]);
    ChainConcat([es[0], es[1], es[2], es[3]], [es[4], es[5], es[6], es[7], es[8]]);
  }

  lemma VolumeChain(v: Volume)
    ensures Chain(VolumeEntries(v))
  {
    EarlyKeys();
    LateChain(v);
    ChainConcat(EarlyEntries(v) + [DescEntry(v)], LateEntries(v));
  }

  lemma DiskValues(v: Volume)
    ensures CleanEntries(LateEntries(v)[..4]) <==> Clean(v.diskType) && Clean(v.sd)
  {
    var es := LateEntries(v);
    VisibleClean(es[2].value);
    VisibleClean(es[3].value);
    Clean4(es[0], es[1], es[2], es[3]);
    assert es[..4] == [es[0], es[1], es[2], es[3]];
  }

  lemma ImageValues(v: Volume)
    ensures CleanEntries(LateEntries(v)[4..]) <==> Clean(v.img) && Clean(v.src)
  {
    var es := LateEntries(v);
    VisibleClean(es[5].value);
    VisibleClean(es[7].value);
    VisibleClean(es[8].value);
    Clean5(es[4], es[5], es[6], es[7], es[8]);
    assert es[4..] == [es[4], es[5], es[6], es[7], es[8]];
  }

  lemma LateValues(v: Volume)
    ensures CleanEntries(LateEntries(v)) <==> CleanRest(v)
  {
    var es := LateEntries(v);
    DiskValues(v);
    ImageValues(v);
    CleanConcat(es[..4], es[4..]);
    assert es == es[..4] + es[4..];
  }

  lemma VolumeValues(v: Volume)
    ensures CleanEntries(VolumeEntries(v)) <==> CleanVolume(v)
  {
    var a := EarlyEntries(v) + [DescEntry(v)];
    DecimalClean(v.size);
    DecimalClean(v.ctime);
    assert a[2].value == v.desc;
    LateValues(v);
    CleanConcat(a, LateEntries(v));
  }

  /** What was written is what is read, for every key, exactly when description, disk type, domain,
      image and parent are single lines without white space at their ends. */
  lemma VolumeReadsBack(v: Volume)
    ensures ReadMeta(BuildMeta(v)) == MapOf(map[], VolumeEntries(v)) <==> CleanVolume(v)
  {
    VolumeChain(v);
    EofIsFooter();
    VolumeValues(v);
    ChainGood(VolumeEntries(v));
    PrintedReadsBack(VolumeEntries(v), EOF);
  }

  function BeforeLate(v: Volume): string {
    Print(EarlyEntries(v)) + "DESCRIPTION=" + v.desc
  }

  lemma {:induction false} PrintConcat(a: seq<Entry>, b: seq<Entry>)
    ensures Print(a + b) == Print(a) + Print(b)
  {
    if a == [] {
      assert a + b == b;
    } else {
      assert (a + b)[1..] == a[1..] + b;
      PrintConcat(a[1..], b);
    }
  }

  lemma MetaParts(v: Volume)
    ensures BuildMeta(v) == BeforeLate(v) + "\n" + (Print(LateEntries(v)) + EOF)
  {
    var early, d, late := EarlyEntries(v), DescEntry(v), LateEntries(v);
    PrintConcat(early + [d], late);
    PrintConcat(early, [d]);
    PrintSingle(d);
    assert PrintEntry(d) == "DESCRIPTION=" + v.desc + "\n";
    assert Print(early + [d]) == BeforeLate(v) + "\n";
  }

  lemma PrintSingle(e: Entry)
    ensures Print([e]) == PrintEntry(e)
  {
    assert [e][1..] == [];
    assert Print([e]) == PrintEntry(e) + Print([]);
  }

  /** Whatever text the description holds, newlines and forged keys included, every key written after
      it is read back right. */
  lemma AnyDescription(v: Volume, i: nat)
    requires CleanRest(v) && i < |LateEntries(v)|
    ensures var e := LateEntries(v)[i];
            e.key in ReadMeta(BuildMeta(v)) && ReadMeta(BuildMeta(v))[e.key] == e.value
  {
    LateChain(v);
    LateValues(v);
    EofIsFooter();
    MetaParts(v);
    ChainGood(LateEntries(v));
    LaterLinesWin(BeforeLate(v), LateEntries(v), EOF, i);
  }

  /** The keys written before the description are not protected: a description with a line break can
      set the capacity to any text. */
  lemma DescriptionSetsCapacity(v: Volume, t: string)
    requires CleanRest(v) && Clean(t) && v.desc == "\nCAP=" + t
    ensures "CAP" in ReadMeta(BuildMeta(v)) && ReadMeta(BuildMeta(v))["CAP"] == t
  {
    var cap := Entry("CAP", t);
    var es := [cap] + LateEntries(v);
    var before := Print(EarlyEntries(v)) + "DESCRIPTION=";
    CapacityText(v, t, before);
    EarlyKeys();
    LateChain(v);
    ChainConcat([cap], LateEntries(v));
    LateValues(v);
    CleanConcat([cap], LateEntries(v));
    EofIsFooter();
    ChainGood(es);
    LaterLinesWin(before, es, EOF, 0);
  }

  lemma CapacityText(v: Volume, t: string, before: string)
    requires v.desc == "\nCAP=" + t && before == Print(EarlyEntries(v)) + "DESCRIPTION="
    ensures BuildMeta(v) == before + "\n" + (Print([Entry("CAP", t)] + LateEntries(v)) + EOF)
  {
    var cap := Entry("CAP", t);
    MetaParts(v);
    PrintSingle(cap);
    PrintConcat([cap], LateEntries(v));
    assert PrintEntry(cap) == "CAP=" + t + "\n";
    assert v.desc == "\n" + ("CAP=" + t);
    MoveCapacity(before, "CAP=" + t, Print(LateEntries(v)), EOF);
  }

  lemma MoveCapacity(before: string, cap: string, late: string, foot: string)
    ensures (before + ("\n" + cap)) + "\n" + (late + foot) == before + "\n" + (((cap + "\n") + late) + foot)
  {
  }

  // ------------------------------------- what a description can do to the keys before it

  /** The description as it stands in the file. */
  function DescText(v: Volume): string {
    PrintEntry(DescEntry(v))
  }

  lemma DescParts(v: Volume)
    ensures BuildMeta(v) == Print(EarlyEntries(v)) + (DescText(v) + (Print(LateEntries(v)) + EOF))
  {
    var early, d, late := EarlyEntries(v), DescEntry(v), LateEntries(v);
    PrintConcat(early + [d], late);
    PrintConcat(early, [d]);
    PrintSingle(d);
  }

  lemma EarlyGood(v: Volume)
    ensures GoodKeys(EarlyEntries(v)) && CleanEntries(EarlyEntries(v))
  {
    EarlyKeys();
    VisibleClean("CAP");
    VisibleClean("CTIME");
    DecimalClean(v.size);
    DecimalClean(v.ctime);
  }

  /** Exactly what is read, for every description: the early keys, over them whatever the description
      text says by itself, over that the late keys. */
  lemma ReadExactly(v: Volume)
    requires CleanRest(v)
    ensures ReadMeta(BuildMeta(v)) == MapOf(MapOf(map[], EarlyEntries(v)) + ReadMeta(DescText(v)), LateEntries(v))
  {
    var early, tail := MapOf(map[], EarlyEntries(v)), Print(LateEntries(v)) + EOF;
    DescParts(v);
    EarlyGood(v);
    FoldPrinted(map[], EarlyEntries(v), DescText(v) + tail);
    LinesSplit("DESCRIPTION" + "=" + v.desc, tail);
    FoldConcat(early, Lines(DescText(v)), Lines(tail));
    assert early + map[] == early;
    FoldOver(early, map[], Lines(DescText(v)));
    LateRead(v, early + ReadMeta(DescText(v)));
  }

  lemma LateRead(v: Volume, m: Meta)
    requires CleanRest(v)
    ensures Fold(m, Lines(Print(LateEntries(v)) + EOF)) == MapOf(m, LateEntries(v))
  {
    LateChain(v);
    LateValues(v);
    ChainGood(LateEntries(v));
    FoldPrinted(m, LateEntries(v), EOF);
    EofIsFooter();
    FoldFooter(MapOf(m, LateEntries(v)), Lines(EOF));
  }

  /** A late key is none of the early ones, nor DESCRIPTION. */
  lemma LateKeysDiffer(v: Volume, k: string)
    requires k == "CAP" || k == "CTIME" || k == "DESCRIPTION"
    ensures forall i :: 0 <= i < |LateEntries(v)| ==> LateEntries(v)[i].key != k
  {
    var late := LateEntries(v);
    EarlyKeys();
    LateChain(v);
    forall i | 0 <= i < |late| ensures late[i].key != k {
      if i > 0 {
        ListedGrows(late, 0, i);
      }
    }
  }

  lemma EarlyMap(v: Volume)
    ensures MapOf(map[], EarlyEntries(v)) == map["CAP" := Decimal(v.size), "CTIME" := Decimal(v.ctime)]
  {
    var e := EarlyEntries(v);
    assert e[1..] == [e[1]] && e[1..][1..] == [];
    assert MapOf(map[], e) == MapOf(map[e[0].key := e[0].value], [e[1]]);
  }

  /** An early key reads back right exactly when the description text, read by itself, does not set it,
      or sets it to the very value. */
  lemma EarlyReadsBack(v: Volume, i: nat)
    requires CleanRest(v) && i < 2
    ensures var e, m := EarlyEntries(v)[i], ReadMeta(DescText(v));
            Get(ReadMeta(BuildMeta(v)), e.key) == e.value <==> e.key !in m || m[e.key] == e.value
  {
    var e, early := EarlyEntries(v)[i], MapOf(map[], EarlyEntries(v));
    ReadExactly(v);
    EarlyMap(v);
    EarlyKeys();
    LateKeysDiffer(v, e.key);
    MapOfOther(early + ReadMeta(DescText(v)), LateEntries(v), e.key);
  }

  /** The same for the three keys by name; the description itself reads back exactly when it is one line
      with no white space at its ends. */
  lemma DescriptionDecides(v: Volume)
    requires CleanRest(v)
    ensures var read, m := ReadMeta(BuildMeta(v)), ReadMeta(DescText(v));
            && (Get(read, "CAP") == Decimal(v.size) <==> "CAP" !in m || m["CAP"] == Decimal(v.size))
            && (Get(read, "CTIME") == Decimal(v.ctime) <==> "CTIME" !in m || m["CTIME"] == Decimal(v.ctime))
            && (Get(read, "DESCRIPTION") == v.desc <==> Clean(v.desc))
  {
    EarlyReadsBack(v, 0);
    EarlyReadsBack(v, 1);
    ReadIsClean(BuildMeta(v));
    if Clean(v.desc) {
      DescReadsBack(v);
    }
  }

  lemma DescReadsBack(v: Volume)
    requires CleanVolume(v)
    ensures Get(ReadMeta(BuildMeta(v)), "DESCRIPTION") == v.desc
  {
    var es := VolumeEntries(v);
    VolumeReadsBack(v);
    VolumeChain(v);
    ListedDistinct(es);
    assert es[2] == DescEntry(v);
    MapOfEntry(map[], es, 2);
  }

  lemma CleanDescSetsNothing(v: Volume)
    requires Clean(v.desc)
    ensures ReadMeta(DescText(v)) == map["DESCRIPTION" := v.desc]
  {
    EarlyKeys();
    VisibleClean("DESCRIPTION");
    OneEntry(DescEntry(v));
  }

  // ------------------------------------------------------- what the engine is told

  /** `m.get(k).cloned().unwrap_or_default()`. */
  function Get(m: Meta, k: string): string {
    if k in m then m[k] else ""
  }

  /** The part of `volume_get_info`'s answer that comes from the metadata file. */
  datatype VolumeInfo = VolumeInfo(
    voltype: string, format: string, kind: string, disktype: string, capacity: string, parent: string,
    description: string, legality: string, ctime: string)

  function InfoOf(m: Meta): VolumeInfo {
    VolumeInfo(Get(m, "VOLTYPE"), Get(m, "FORMAT"), Get(m, "TYPE"), Get(m, "DISKTYPE"), Get(m, "CAP"),
               Get(m, "PUUID"), Get(m, "DESCRIPTION"), Get(m, "LEGALITY"), Get(m, "CTIME"))
  }

  /** Creating a volume and asking for its information gives back what it was created with exactly when
      its description is one line with no white space at its ends. */
  lemma VolumeInfoReadsBack(v: Volume)
    requires CleanRest(v)
    ensures InfoOf(ReadMeta(BuildMeta(v))) ==
            VolumeInfo("LEAF", if v.format == 4 then "COW" else "RAW",
                       if v.prealloc == 1 then "PREALLOCATED" else "SPARSE", v.diskType, Decimal(v.size), v.src,
                       v.desc, "LEGAL", Decimal(v.ctime))
            <==> Clean(v.desc)
  {
    LateInfoReadsBack(v);
    DescriptionDecides(v);
    if Clean(v.desc) {
      CleanDescSetsNothing(v);
      EarlyKeys();
    }
  }

  /** Of these only capacity, creation time and the description itself depend on the description. */
  lemma LateInfoReadsBack(v: Volume)
    requires CleanRest(v)
    ensures var i := InfoOf(ReadMeta(BuildMeta(v)));
            && i.voltype == "LEAF" && i.format == (if v.format == 4 then "COW" else "RAW")
            && i.kind == (if v.prealloc == 1 then "PREALLOCATED" else "SPARSE")
            && i.disktype == v.diskType && i.parent == v.src && i.legality == "LEGAL"
  {
    var es := LateEntries(v);
    AnyDescription(v, 0);
    AnyDescription(v, 2);
    AnyDescription(v, 5);
    AnyDescription(v, 6);
    AnyDescription(v, 7);
    AnyDescription(v, 8);
    assert es[0] == Entry("DISKTYPE", v.diskType) && es[2] == Entry("FORMAT", FormatText(v.format));
    assert es[5] == Entry("LEGALITY", "LEGAL") && es[6] == Entry("PUUID", v.src);
    assert es[7] == Entry("TYPE", AllocText(v.prealloc)) && es[8] == Entry("VOLTYPE", "LEAF");
  }

  /** The file also says, whatever the description, which domain and image the volume belongs to. */
  lemma VolumePlaceReadsBack(v: Volume)
    requires CleanRest(v)
    ensures var m := ReadMeta(BuildMeta(v));
            Get(m, "DOMAIN") == v.sd && Get(m, "IMAGE") == v.img && Get(m, "GEN") == "0"
  {
    var es := LateEntries(v);
    AnyDescription(v, 1);
    AnyDescription(v, 3);
    AnyDescription(v, 4);
    assert es[1] == Entry("DOMAIN", v.sd) && es[3] == Entry("GEN", "0") && es[4] == Entry("IMAGE", v.img);
  }

  // ------------------------------------------------------------- storage domains

  datatype StorageDomain = StorageDomain(
    blockSize: int, cls: int, name: string, remotePath: string, uuid: string, kind: int, version: int)

  function ClassText(c: int): string { if c == 2 then "Iso" else if c == 3 then "Backup" else "Data" }

  function TypeText(t: int): string {
    match t
    case 2 => "FCP"
    case 3 => "ISCSI"
    case 4 => "LOCALFS"
    case 5 => "CIFS"
    case 7 => "POSIXFS"
    case _ => "NFS"
  }

  /** The placeholder checksum: 64 zeros. */
  function NoChecksum(): string {
    seq(64, _ => '0')
  }

  function HeadEntries(d: StorageDomain): seq<Entry> {
    [Entry("ALIGNMENT", "1048576"), Entry("BLOCK_SIZE", Decimal(d.blockSize)),
     Entry("CLASS", ClassText(d.cls)), Entry("DESCRIPTION", d.name)]
  }

  function LeaseEntries(): seq<Entry> {
    [Entry("IOOPTIMEOUTSEC", "10"), Entry("LEASERETRIES", "3"), Entry("LEASETIMESEC", "60"),
     Entry("LOCKPOLICY", ""), Entry("LOCKRENEWALINTERVALSEC", "5")]
  }

  function PoolEntries(d: StorageDomain): seq<Entry> {
    [Entry("MASTER_VERSION", "0"), Entry("POOL_UUID", ""), Entry("REMOTE_PATH", d.remotePath),
     Entry("ROLE", "Regular")]
  }

  function TailEntries(d: StorageDomain): seq<Entry> {
    [Entry("SDUUID", d.uuid), Entry("TYPE", TypeText(d.kind)), Entry("VERSION", Decimal(d.version)),
     Entry("_SHA_CKSUM", NoChecksum())]
  }

  function DomainEntries(d: StorageDomain): seq<Entry> {
    HeadEntries(d) + LeaseEntries() + (PoolEntries(d) + TailEntries(d))
  }

  predicate CleanDomain(d: StorageDomain) {
    Clean(d.name) && Clean(d.remotePath) && Clean(d.uuid)
  }

  lemma HeadKeys()
    ensures PlainKey("ALIGNMENT") && PlainKey("BLOCK_SIZE") && PlainKey("CLASS") && PlainKey("DESCRIPTION")
    ensures Rank("ALIGNMENT") < Rank("BLOCK_SIZE") < Rank("CLASS") < Rank("DESCRIPTION")
  {
  }

  lemma LeaseKeys()
    ensures PlainKey("IOOPTIMEOUTSEC") && PlainKey("LEASERETRIES") && PlainKey("LEASETIMESEC")
    ensures Rank("DESCRIPTION") < Rank("IOOPTIMEOUTSEC") < Rank("LEASERETRIES") < Rank("LEASETIMESEC")
  {
  }

  lemma LockKeys()
    ensures PlainKey("LOCKPOLICY") && PlainKey("LOCKRENEWALINTERVALSEC")
    ensures Rank("LEASETIMESEC") < Rank("LOCKPOLICY") < Rank("LOCKRENEWALINTERVALSEC")
  {
  }

  lemma PoolKeys()
    ensures PlainKey("MASTER_VERSION") && PlainKey("POOL_UUID")
    ensures Rank("LOCKRENEWALINTERVALSEC") < Rank("MASTER_VERSION") < Rank("POOL_UUID")
  {
  }

  lemma RoleKeys()
    ensures PlainKey("REMOTE_PATH") && PlainKey("ROLE")
    ensures Rank("POOL_UUID") < Rank("REMOTE_PATH") < Rank("ROLE")
  {
  }

  lemma TailKeys()
    ensures PlainKey("SDUUID") && PlainKey("TYPE") && PlainKey("VERSION") && PlainKey("_SHA_CKSUM")
    ensures Rank("ROLE") < Rank("SDUUID") < Rank("TYPE") < Rank("VERSION") < Rank("_SHA_CKSUM")
  {
  }

  lemma DomainChain(d: StorageDomain)
    ensures Chain(DomainEntries(d))
  {
    var h, l, p, t := HeadEntries(d), LeaseEntries(), PoolEntries(d), TailEntries(d);
    HeadKeys();
    LeaseKeys();
    LockKeys();
    PoolKeys();
    RoleKeys();
    TailKeys();
    Chain4(h[0], h[1], h[2], h[3]);
    Chain5(l[0], l[1], l[2], l[3], l[4]);
    Chain4(p[0], p[1], p[2], p[3]);
    Chain4(t[0], t[1], t[2], t[3]);
    ChainConcat(h, l);
    ChainConcat(p, t);
    ChainConcat(h + l, p + t);
  }

  lemma HeadValues(d: StorageDomain)
    ensures CleanEntries(HeadEntries(d)) <==> Clean(d.name)
  {
    var h := HeadEntries(d);
    VisibleClean(h[0].value);
    DecimalClean(d.blockSize);
    VisibleClean(h[2].value);
    Clean4(h[0], h[1], h[2], h[3]);
  }

  lemma LeaseValues()
    ensures CleanEntries(LeaseEntries())
  {
    var l := LeaseEntries();
    VisibleClean(l[0].value);
    VisibleClean(l[1].value);
    VisibleClean(l[2].value);
    VisibleClean(l[3].value);
    VisibleClean(l[4].value);
    Clean5(l[0], l[1], l[2], l[3], l[4]);
  }

  lemma PoolValues(d: StorageDomain)
    ensures CleanEntries(PoolEntries(d)) <==> Clean(d.remotePath)
  {
    var p := PoolEntries(d);
    VisibleClean(p[0].value);
    VisibleClean(p[1].value);
    VisibleClean(p[3].value);
    Clean4(p[0], p[1], p[2], p[3]);
  }

  lemma TailValues(d: StorageDomain)
    ensures CleanEntries(TailEntries(d)) <==> Clean(d.uuid)
  {
    var t := TailEntries(d);
    VisibleClean(t[1].value);
    DecimalClean(d.version);
    VisibleClean(t[3].value);
    Clean4(t[0], t[1], t[2], t[3]);
  }

  /** The domain file is read back for every key exactly when name, remote path and domain id are
      single lines without white space at their ends. */
  lemma DomainReadsBack(d: StorageDomain)
    ensures ReadMeta(Print(DomainEntries(d))) == MapOf(map[], DomainEntries(d)) <==> CleanDomain(d)
  {
    var h, l, p, t := HeadEntries(d), LeaseEntries(), PoolEntries(d), TailEntries(d);
    HeadValues(d);
    LeaseValues();
    PoolValues(d);
    TailValues(d);
    CleanConcat(h, l);
    CleanConcat(p, t);
    CleanConcat(h + l, p + t);
    DomainChain(d);
    ChainGood(DomainEntries(d));
    PrintedReadsBack(DomainEntries(d), "");
    assert Print(DomainEntries(d)) + "" == Print(DomainEntries(d));
  }

  /** The part of `get_storage_domain_info`'s answer that comes from the metadata file. */
  datatype DomainInfo = DomainInfo(
    kind: string, cls: string, name: string, role: string, version: string, remotePath: string,
    alignment: string, blockSize: string, masterVersion: string)

  function DomainInfoOf(m: Meta): DomainInfo {
    DomainInfo(Get(m, "TYPE"), Get(m, "CLASS"), Get(m, "DESCRIPTION"), Get(m, "ROLE"), Get(m, "VERSION"),
               Get(m, "REMOTE_PATH"), Get(m, "ALIGNMENT"), Get(m, "BLOCK_SIZE"), Get(m, "MASTER_VERSION"))
  }

  lemma DomainEntryRead(d: StorageDomain, i: nat)
    requires CleanDomain(d) && i < |DomainEntries(d)|
    ensures Get(ReadMeta(Print(DomainEntries(d))), DomainEntries(d)[i].key) == DomainEntries(d)[i].value
  {
    var es := DomainEntries(d);
    DomainReadsBack(d);
    DomainChain(d);
    ListedDistinct(es);
    MapOfEntry(map[], es, i);
  }

  lemma HeadInfo(d: StorageDomain)
    requires CleanDomain(d)
    ensures var i := DomainInfoOf(ReadMeta(Print(DomainEntries(d))));
            && i.alignment == "1048576" && i.blockSize == Decimal(d.blockSize) && i.cls == ClassText(d.cls)
            && i.name == d.name
  {
    var es := DomainEntries(d);
    DomainEntryRead(d, 0);
    DomainEntryRead(d, 1);
    DomainEntryRead(d, 2);
    DomainEntryRead(d, 3);
    assert es[0] == Entry("ALIGNMENT", "1048576") && es[1] == Entry("BLOCK_SIZE", Decimal(d.blockSize));
    assert es[2] == Entry("CLASS", ClassText(d.cls)) && es[3] == Entry("DESCRIPTION", d.name);
  }

  /** Creating a storage domain and asking for its information gives back what it was created with
      exactly when name and remote path are single lines with no white space at their ends. */
  lemma DomainInfoReadsBack(d: StorageDomain)
    requires Clean(d.uuid)
    ensures DomainInfoOf(ReadMeta(Print(DomainEntries(d)))) == InfoGiven(d) <==> Clean(d.name) && Clean(d.remotePath)
  {
    ReadIsClean(Print(DomainEntries(d)));
    if CleanDomain(d) {
      CleanDomainInfo(d);
    }
  }

  /** What the domain was created with, as it is to be reported. */
  function InfoGiven(d: StorageDomain): DomainInfo {
    var classes := map[2 := "Iso", 3 := "Backup"];
    var types := map[1 := "NFS", 2 := "FCP", 3 := "ISCSI", 4 := "LOCALFS", 5 := "CIFS", 7 := "POSIXFS"];
    DomainInfo(if d.kind in types then types[d.kind] else "NFS", if d.cls in classes then classes[d.cls] else "Data",
               d.name, "Regular", Decimal(d.version), d.remotePath, "1048576", Decimal(d.blockSize), "0")
  }

  /** The file also says which domain it is, that it is in no pool, and the lease settings. */
  lemma DomainFileReadsBack(d: StorageDomain)
    requires CleanDomain(d)
    ensures var m := ReadMeta(Print(DomainEntries(d)));
            && Get(m, "SDUUID") == d.uuid && Get(m, "POOL_UUID") == "" && Get(m, "LOCKPOLICY") == ""
            && Get(m, "LEASETIMESEC") == "60" && Get(m, "LEASERETRIES") == "3"
            && Get(m, "IOOPTIMEOUTSEC") == "10" && Get(m, "LOCKRENEWALINTERVALSEC") == "5"
  {
    var es := DomainEntries(d);
    LeaseReadsBack(d);
    DomainEntryRead(d, 10);
    DomainEntryRead(d, 13);
    assert es[10] == Entry("POOL_UUID", "") && es[13] == Entry("SDUUID", d.uuid);
  }

  lemma LeaseReadsBack(d: StorageDomain)
    requires CleanDomain(d)
    ensures var m := ReadMeta(Print(DomainEntries(d)));
            && Get(m, "IOOPTIMEOUTSEC") == "10" && Get(m, "LEASERETRIES") == "3" && Get(m, "LEASETIMESEC") == "60"
            && Get(m, "LOCKPOLICY") == "" && Get(m, "LOCKRENEWALINTERVALSEC") == "5"
  {
    var es := DomainEntries(d);
    DomainEntryRead(d, 4);
    DomainEntryRead(d, 5);
    DomainEntryRead(d, 6);
    DomainEntryRead(d, 7);
    DomainEntryRead(d, 8);
    assert es[4] == Entry("IOOPTIMEOUTSEC", "10") && es[5] == Entry("LEASERETRIES", "3");
    assert es[6] == Entry("LEASETIMESEC", "60") && es[7] == Entry("LOCKPOLICY", "");
    assert es[8] == Entry("LOCKRENEWALINTERVALSEC", "5");
  }

  lemma TailInfo(d: StorageDomain)
    requires CleanDomain(d)
    ensures var i := DomainInfoOf(ReadMeta(Print(DomainEntries(d))));
            && i.masterVersion == "0" && i.remotePath == d.remotePath && i.role == "Regular"
            && i.kind == TypeText(d.kind) && i.version == Decimal(d.version)
  {
    var es := DomainEntries(d);
    DomainEntryRead(d, 9);
    DomainEntryRead(d, 11);
    DomainEntryRead(d, 12);
    DomainEntryRead(d, 14);
    DomainEntryRead(d, 15);
    assert es[9] == Entry("MASTER_VERSION", "0") && es[11] == Entry("REMOTE_PATH", d.remotePath);
    assert es[12] == Entry("ROLE", "Regular") && es[14] == Entry("TYPE", TypeText(d.kind));
    assert es[15] == Entry("VERSION", Decimal(d.version));
  }

  lemma TablesSpelt(d: StorageDomain)
    ensures InfoGiven(d).kind == TypeText(d.kind) && InfoGiven(d).cls == ClassText(d.cls)
  {
  }

  lemma CleanDomainInfo(d: StorageDomain)
    requires CleanDomain(d)
    ensures DomainInfoOf(ReadMeta(Print(DomainEntries(d)))) == InfoGiven(d)
  {
    HeadInfo(d);
    TailInfo(d);
    TablesSpelt(d);
  }
}
