/** Which alerts one reading of the storage raises. */
module HealthAlerts {
  import opened Decimals
  import opened Texts
  import opened Wrappers

  const MAX_ACTIVE: nat := 128

  datatype ArrayStatus = Degraded | Recovering | Checking | Inactive | Unknown | Fine

  datatype Code = Unavailable | Smart | Temperature | Capacity | Raid(status: ArrayStatus)

  /** An alert id is a digest of the code and the resource, and determines both. */
  datatype Id = Id(code: Code, resource: string)

  datatype Finding = Finding(id: Id, critical: bool, message: string)

  datatype Disk = Disk(file: string, health: string, temperature: Option<int>)
  datatype Volume = Volume(file: string, title: string, total: int, free: int, used: Option<int>)
  datatype Array = Array(file: string, status: ArrayStatus, percent: Option<int>)

  datatype Thresholds = Thresholds(warmAt: int, hotAt: int, fullAt: int, veryFullAt: int)

  /** What the three views of one poll show. */
  datatype Views = Views(disks: seq<Disk>, volumes: seq<Volume>, arrays: seq<Array>)

  // ----- the texts -----

  const MAX_RESOURCE: nat := 256
  const MAX_MESSAGE: nat := 512

  const SMART_TEXT := "磁盘 SMART 健康异常："
  const HEAT_TEXT := "磁盘温度为 "
  const VOLUME_TEXT := "存储卷 "
  const USED_TEXT := " 已使用 "

  function SmartText(health: string): string {
    Cut(SMART_TEXT + health)
  }

  function HeatText(degrees: int): string {
    Cut(HEAT_TEXT + Signed(degrees) + "°C")
  }

  function CapacityText(title: string, used: int): string {
    Cut(VOLUME_TEXT + title + (USED_TEXT + Signed(used) + "%"))
  }

  function StatusText(status: ArrayStatus): string {
    match status
    case Degraded => "软件阵列已降级"
    case Recovering => "软件阵列正在重建"
    case Checking => "软件阵列正在校验"
    case Inactive => "软件阵列未激活"
    case Unknown => "软件阵列状态未知"
    case Fine => ""
  }

  function RaidText(status: ArrayStatus, percent: Option<int>): string {
    Cut(StatusText(status) + if percent.Some? then "（" + Signed(percent.value) + "%）" else "")
  }

  function Cut(s: string): string {
    Take(s, MAX_MESSAGE)
  }

  predicate HealthySmart(health: string) {
    Folded(Strip(health)) in {"passed", "ok", "good", "healthy", "true"}
  }

  function OfDisk(d: Disk, t: Thresholds): seq<Finding> {
    (if HealthySmart(d.health) then [] else [Finding(Id(Smart, d.file), true, SmartText(d.health))])
    + (if d.temperature.Some? && d.temperature.value >= t.warmAt
       then [Finding(Id(Temperature, d.file), d.temperature.value >= t.hotAt, HeatText(d.temperature.value))]
       else [])
  }

  /** `round`, to the even neighbour when halfway. */
  function RoundedPercent(part: int, whole: int): int
    requires whole > 0
  {
    var q, r := 100 * part / whole, 100 * part % whole;
    if 2 * r < whole || (2 * r == whole && q % 2 == 0) then q else q + 1
  }

  function Used(v: Volume): int {
    if v.used.Some? then v.used.value
    else if v.total > 0 then RoundedPercent(v.total - v.free, v.total) else 0
  }

  function Label(v: Volume): string {
    if v.title == "" then v.file else v.title
  }

  function OfVolume(v: Volume, t: Thresholds): seq<Finding> {
    if Used(v) < t.fullAt then []
    else [Finding(Id(Capacity, v.file), Used(v) >= t.veryFullAt,
                  CapacityText(Label(v), Used(v)))]
  }

  function OfArray(a: Array): seq<Finding> {
    if a.status.Fine? then []
    else [Finding(Id(Raid(a.status), a.file), a.status.Degraded? || a.status.Inactive? || a.status.Unknown?,
                  RaidText(a.status, a.percent))]
  }

  function OfDisks(ds: seq<Disk>, t: Thresholds): seq<Finding> {
    if ds == [] then [] else OfDisk(ds[0], t) + OfDisks(ds[1..], t)
  }

  function OfVolumes(vs: seq<Volume>, t: Thresholds): seq<Finding> {
    if vs == [] then [] else OfVolume(vs[0], t) + OfVolumes(vs[1..], t)
  }

  function OfArrays(list: seq<Array>): seq<Finding> {
    if list == [] then [] else OfArray(list[0]) + OfArrays(list[1..])
  }

  function All(v: Views, t: Thresholds): seq<Finding> {
    OfDisks(v.disks, t) + OfVolumes(v.volumes, t) + OfArrays(v.arrays)
  }

  function Graded(fs: seq<Finding>, critical: bool): (r: seq<Finding>)
    ensures |r| <= |fs|
    ensures forall f :: f in r <==> f in fs && f.critical == critical
  {
    if fs == [] then []
    else (if fs[0].critical == critical then [fs[0]] else []) + Graded(fs[1..], critical)
  }

  /** `_derive_alerts`: critical findings first, or too many to report. */
  function Derive(v: Views, t: Thresholds): Option<seq<Finding>> {
    var fs := All(v, t);
    if |fs| > MAX_ACTIVE then None else Some(Graded(fs, true) + Graded(fs, false))
  }

  /** What a batch of findings looks like when every resource is listed once. */
  ghost predicate Batch(fs: seq<Finding>) {
    && |fs| <= MAX_ACTIVE
    && (forall i, j :: 0 <= i < j < |fs| ==> fs[i].id != fs[j].id)
    && forall f :: f in fs ==> f.id.code != Unavailable
  }

  ghost predicate ListedOnce(v: Views) {
    && (forall i, j :: 0 <= i < j < |v.disks| ==> v.disks[i].file != v.disks[j].file)
    && (forall i, j :: 0 <= i < j < |v.volumes| ==> v.volumes[i].file != v.volumes[j].file)
    && forall i, j :: 0 <= i < j < |v.arrays| ==> v.arrays[i].file != v.arrays[j].file
  }

  ghost predicate Different(fs: seq<Finding>) {
    forall i, j :: 0 <= i < j < |fs| ==> fs[i].id != fs[j].id
  }

  lemma DifferentConcat(a: seq<Finding>, b: seq<Finding>)
    requires Different(a) && Different(b) && forall f, g :: f in a && g in b ==> f.id != g.id
    ensures Different(a + b)
  {
    forall i, j | 0 <= i < j < |a + b| ensures (a + b)[i].id != (a + b)[j].id {
      if i < |a| <= j {
        assert a[i] in a && b[j - |a|] in b;
      }
    }
  }

  lemma DiskDiffers(d: Disk, t: Thresholds)
    ensures Different(OfDisk(d, t))
    ensures forall f :: f in OfDisk(d, t) ==> f.id.code in {Smart, Temperature} && f.id.resource == d.file
  {
  }

  lemma {:induction false} DisksDiffer(ds: seq<Disk>, t: Thresholds)
    requires forall i, j :: 0 <= i < j < |ds| ==> ds[i].file != ds[j].file
    ensures Different(OfDisks(ds, t))
    ensures forall f :: f in OfDisks(ds, t) ==>
              f.id.code in {Smart, Temperature} && exists d :: d in ds && d.file == f.id.resource
  {
    hide OfDisk, Different;
    if ds != [] {
      DisksDiffer(ds[1..], t);
      DiskDiffers(ds[0], t);
      var first, rest := OfDisk(ds[0], t), OfDisks(ds[1..], t);
      forall f | f in rest ensures f.id.resource != ds[0].file && exists d :: d in ds && d.file == f.id.resource {
        var d :| d in ds[1..] && d.file == f.id.resource;
        var k :| 0 <= k < |ds[1..]| && ds[1..][k] == d;
        assert ds[k + 1] == d;
      }
      assert ds[0] in ds;
      DifferentConcat(first, rest);
    } else {
      NoneDiffer();
    }
  }

  lemma NoneDiffer()
    ensures Different([])
  {
  }

  lemma {:induction false} VolumesDiffer(vs: seq<Volume>, t: Thresholds)
    requires forall i, j :: 0 <= i < j < |vs| ==> vs[i].file != vs[j].file
    ensures Different(OfVolumes(vs, t))
    ensures forall f :: f in OfVolumes(vs, t) ==>
              f.id.code == Capacity && exists v :: v in vs && v.file == f.id.resource
  {
    if vs != [] {
      VolumesDiffer(vs[1..], t);
      var rest := OfVolumes(vs[1..], t);
      forall f | f in rest ensures f.id.resource != vs[0].file && exists v :: v in vs && v.file == f.id.resource {
        var v :| v in vs[1..] && v.file == f.id.resource;
        var k :| 0 <= k < |vs[1..]| && vs[1..][k] == v;
        assert vs[k + 1] == v;
      }
      assert vs[0] in vs;
      DifferentConcat(OfVolume(vs[0], t), rest);
    }
  }

  lemma {:induction false} ArraysDiffer(list: seq<Array>)
    requires forall i, j :: 0 <= i < j < |list| ==> list[i].file != list[j].file
    ensures Different(OfArrays(list))
    ensures forall f :: f in OfArrays(list) ==>
              f.id.code.Raid? && exists a :: a in list && a.file == f.id.resource
  {
    if list != [] {
      ArraysDiffer(list[1..]);
      var rest := OfArrays(list[1..]);
      forall f | f in rest ensures f.id.resource != list[0].file && exists a :: a in list && a.file == f.id.resource {
        var a :| a in list[1..] && a.file == f.id.resource;
        var k :| 0 <= k < |list[1..]| && list[1..][k] == a;
        assert list[k + 1] == a;
      }
      assert list[0] in list;
      DifferentConcat(OfArray(list[0]), rest);
    }
  }

  lemma {:induction false} GradedDiffer(fs: seq<Finding>, critical: bool)
    requires Different(fs)
    ensures Different(Graded(fs, critical))
    ensures |Graded(fs, critical)| + |Graded(fs, !critical)| == |fs|
  {
    if fs != [] {
      GradedDiffer(fs[1..], critical);
      forall g | g in Graded(fs[1..], critical) ensures g.id != fs[0].id {
        var k :| 0 <= k < |fs[1..]| && fs[1..][k] == g;
        assert fs[k + 1] == g;
      }
      DifferentConcat([fs[0]], Graded(fs[1..], critical));
    }
  }

  /** A reading that lists every resource once gives a batch of different alerts, none of
      them about the bridge itself. */
  lemma DerivedIsBatch(v: Views, t: Thresholds)
    requires ListedOnce(v) && Derive(v, t).Some?
    ensures Batch(Derive(v, t).value)
  {
    DisksDiffer(v.disks, t);
    VolumesDiffer(v.volumes, t);
    ArraysDiffer(v.arrays);
    DifferentConcat(OfDisks(v.disks, t), OfVolumes(v.volumes, t));
    DifferentConcat(OfDisks(v.disks, t) + OfVolumes(v.volumes, t), OfArrays(v.arrays));
    var fs := All(v, t);
    GradedDiffer(fs, true);
    GradedDiffer(fs, false);
    DifferentConcat(Graded(fs, true), Graded(fs, false));
  }

  lemma {:induction false} DiskRaises(ds: seq<Disk>, t: Thresholds, f: Finding)
    ensures f in OfDisks(ds, t) <==> exists i :: 0 <= i < |ds| && f in OfDisk(ds[i], t)
  {
    if ds != [] {
      DiskRaises(ds[1..], t, f);
      if f in OfDisk(ds[0], t) {
        assert f in OfDisks(ds, t);
      } else if i :| 0 <= i < |ds| && f in OfDisk(ds[i], t) {
        assert ds[1..][i - 1] == ds[i];
      }
    }
  }

  /** A reported disk fault is there, and a disk fault that is there is reported. */
  lemma SmartAlertIffFaulty(v: Views, t: Thresholds, file: string)
    requires Derive(v, t).Some?
    ensures (exists f :: f in Derive(v, t).value && f.id == Id(Smart, file))
            <==> exists i :: 0 <= i < |v.disks| && v.disks[i].file == file && !HealthySmart(v.disks[i].health)
  {
    hide HealthySmart, OfDisks, OfVolumes, OfArrays;
    var fs := Derive(v, t).value;
    if i :| 0 <= i < |v.disks| && v.disks[i].file == file && !HealthySmart(v.disks[i].health) {
      var f := Finding(Id(Smart, file), true, SmartText(v.disks[i].health));
      assert f == OfDisk(v.disks[i], t)[0];
      assert f in OfDisk(v.disks[i], t);
      DiskRaises(v.disks, t, f);
      assert f in All(v, t);
      assert f in Graded(All(v, t), true);
    }
    if f :| f in fs && f.id == Id(Smart, file) {
      assert f in All(v, t);
      OnlyDisksRaiseSmart(v, t, f);
      DiskRaises(v.disks, t, f);
      var i :| 0 <= i < |v.disks| && f in OfDisk(v.disks[i], t);
    }
  }

  lemma OnlyDisksRaiseSmart(v: Views, t: Thresholds, f: Finding)
    requires f in All(v, t) && f.id.code == Smart
    ensures f in OfDisks(v.disks, t)
  {
    VolumeCodes(v.volumes, t);
    ArrayCodes(v.arrays);
  }

  lemma {:induction false} VolumeCodes(vs: seq<Volume>, t: Thresholds)
    ensures forall f :: f in OfVolumes(vs, t) ==> f.id.code == Capacity
  {
    if vs != [] {
      VolumeCodes(vs[1..], t);
    }
  }

  lemma {:induction false} ArrayCodes(list: seq<Array>)
    ensures forall f :: f in OfArrays(list) ==> f.id.code.Raid?
  {
    if list != [] {
      ArrayCodes(list[1..]);
    }
  }

  // ----- texts that can be read back -----

  const BY_ID := "/dev/disk/by-id/"

  predicate IsDeviceChar(c: char) {
    'A' <= c <= 'Z' || 'a' <= c <= 'z' || '0' <= c <= '9' || c in {'.', '_', '/', '+', ':', '-'}
  }

  /** `validate_devicefile` accepts it. */
  predicate DeviceFile(s: string) {
    5 < |s| <= MAX_RESOURCE && "/dev/" <= s && forall c :: c in s ==> IsDeviceChar(c)
  }

  /** What the client lets through. */
  predicate AcceptedDisk(d: Disk) {
    && DeviceFile(d.file) && d.health != "" && BoundedText(d.health, 128)
    && (d.temperature.Some? ==> 0 <= d.temperature.value <= 300)
  }

  predicate AcceptedVolume(v: Volume) {
    && DeviceFile(v.file) && BoundedText(v.title, 256) && 0 <= v.free <= v.total
    && (v.used.Some? ==> 0 <= v.used.value <= 100)
  }

  predicate AcceptedArray(a: Array) {
    DeviceFile(a.file) && (a.percent.Some? ==> 0 <= a.percent.value <= 100)
  }

  predicate Accepted(v: Views) {
    && (forall d :: d in v.disks ==> AcceptedDisk(d))
    && (forall w :: w in v.volumes ==> AcceptedVolume(w))
    && forall a :: a in v.arrays ==> AcceptedArray(a)
  }

  /** `_safe_text` of the state file accepts it. */
  predicate ReadableText(s: string, maximum: nat) {
    s != "" && BoundedText(s, maximum) && !Contains(s, BY_ID)
  }

  /** The texts of an alert or of an event about this finding pass the check. */
  predicate Readable(f: Finding) {
    ReadableText(f.id.resource, MAX_RESOURCE) && ReadableText(f.message, MAX_MESSAGE)
  }

  /** An entry raises an alert and carries a forbidden path in a text of it. */
  predicate OffendingDisk(d: Disk, t: Thresholds) {
    || (OfDisk(d, t) != [] && Contains(d.file, BY_ID))
    || (!HealthySmart(d.health) && Contains(d.health, BY_ID))
  }

  predicate OffendingVolume(v: Volume, t: Thresholds) {
    Used(v) >= t.fullAt && (Contains(v.file, BY_ID) || Contains(v.title, BY_ID))
  }

  predicate OffendingArray(a: Array) {
    !a.status.Fine? && Contains(a.file, BY_ID)
  }

  predicate Offends(v: Views, t: Thresholds) {
    || (exists d :: d in v.disks && OffendingDisk(d, t))
    || (exists w :: w in v.volumes && OffendingVolume(w, t))
    || exists a :: a in v.arrays && OffendingArray(a)
  }

  /** A text put between texts without a slash. */
  lemma FramedReadable(before: string, s: string, after: string)
    requires '/' !in before && '/' !in after && before + s + after != ""
    requires BoundedText(before, 32) && BoundedText(s, 256) && BoundedText(after, 32)
    ensures var m := before + s + after;
            Cut(m) == m && (ReadableText(m, MAX_MESSAGE) <==> !Contains(s, BY_ID))
  {
    ContainsFramed(before, s, after, BY_ID);
    forall c | c in before + s + after ensures c >= ' ' {
      assert c in before || c in s || c in after;
    }
  }

  lemma DeviceFileReadable(file: string)
    requires DeviceFile(file)
    ensures BoundedText(file, MAX_RESOURCE) && (ReadableText(file, MAX_RESOURCE) <==> !Contains(file, BY_ID))
  {
    assert forall c :: IsDeviceChar(c) ==> c >= ' ';
  }

  /** A decimal number is short and has no slash. */
  lemma SmallNumber(n: int)
    requires 0 <= n < 1000
    ensures '/' !in Signed(n) && BoundedText(Signed(n), 3)
  {
    DecimalDigits(n);
    assert |Decimal(n)| <= 3 by {
      assert |Decimal(n / 100)| == 1;
    }
  }

  lemma JoinedBounds(a: string, b: string, m: nat, n: nat)
    requires BoundedText(a, m) && BoundedText(b, n) && '/' !in a && '/' !in b
    ensures BoundedText(a + b, m + n) && '/' !in a + b
  {
    forall c | c in a + b ensures c >= ' ' && c != '/' {
      assert c in a || c in b;
    }
  }

  lemma NoPathInNothing()
    ensures !Contains("", BY_ID)
  {
  }

  lemma SmartReadable(d: Disk)
    requires AcceptedDisk(d)
    ensures ReadableText(SmartText(d.health), MAX_MESSAGE) <==> !Contains(d.health, BY_ID)
  {
    FramedReadable(SMART_TEXT, d.health, "");
    assert SMART_TEXT + d.health + "" == SMART_TEXT + d.health;
  }

  lemma HeatReadable(degrees: int)
    requires 0 <= degrees <= 300
    ensures ReadableText(HeatText(degrees), MAX_MESSAGE)
  {
    hide Signed;
    SmallNumber(degrees);
    NoPathInNothing();
    JoinedBounds(Signed(degrees), "°C", 3, 2);
    FramedReadable(HEAT_TEXT, "", Signed(degrees) + "°C");
    assert HEAT_TEXT + "" + (Signed(degrees) + "°C") == HEAT_TEXT + Signed(degrees) + "°C";
  }

  lemma CapacityReadable(title: string, used: int)
    requires BoundedText(title, 256) && 0 <= used < 1000
    ensures ReadableText(CapacityText(title, used), MAX_MESSAGE) <==> !Contains(title, BY_ID)
  {
    hide Signed;
    SmallNumber(used);
    JoinedBounds(USED_TEXT, Signed(used), 5, 3);
    JoinedBounds(USED_TEXT + Signed(used), "%", 8, 1);
    FramedReadable(VOLUME_TEXT, title, USED_TEXT + Signed(used) + "%");
  }

  lemma StatusBounds(status: ArrayStatus)
    ensures BoundedText(StatusText(status), 8) && '/' !in StatusText(status)
    ensures !status.Fine? ==> StatusText(status) != ""
  {
  }

  lemma RaidReadable(a: Array)
    requires AcceptedArray(a) && !a.status.Fine?
    ensures ReadableText(RaidText(a.status, a.percent), MAX_MESSAGE)
  {
    hide Signed, StatusText, DeviceFile;
    StatusBounds(a.status);
    NoPathInNothing();
    var tail := if a.percent.Some? then "（" + Signed(a.percent.value) + "%）" else "";
    if a.percent.Some? {
      SmallNumber(a.percent.value);
      JoinedBounds("（", Signed(a.percent.value), 1, 3);
      JoinedBounds("（" + Signed(a.percent.value), "%）", 4, 2);
    }
    FramedReadable(StatusText(a.status), "", tail);
    assert StatusText(a.status) + "" + tail == StatusText(a.status) + tail;
  }

  lemma UsedSmall(v: Volume)
    requires AcceptedVolume(v)
    ensures 0 <= Used(v) < 1000
  {
    if v.used.None? && v.total > 0 {
      PercentSmall(v.total - v.free, v.total);
    }
  }

  lemma PercentSmall(part: int, whole: int)
    requires 0 <= part <= whole && whole > 0
    ensures 0 <= RoundedPercent(part, whole) <= 101
  {
    QuotientBounds(100 * part / whole, 100 * part % whole, part, whole);
  }

  lemma QuotientBounds(q: int, r: int, part: int, whole: int)
    requires 0 <= part <= whole && whole > 0
    requires 100 * part == q * whole + r && 0 <= r < whole
    ensures 0 <= q <= 100
  {
    assert (101 - q) * whole == 101 * whole - q * whole;
    PositiveFactor(101 - q, whole);
    assert (q + 1) * whole == q * whole + whole;
    PositiveFactor(q + 1, whole);
  }

  lemma PositiveFactor(x: int, w: int)
    requires w > 0 && x * w > 0
    ensures x > 0
  {
  }

  // ----- which views cannot be saved -----

  lemma DiskReadable(d: Disk, t: Thresholds)
    requires AcceptedDisk(d)
    ensures (exists f :: f in OfDisk(d, t) && !Readable(f)) <==> OffendingDisk(d, t)
  {
    hide HealthySmart, SmartText, HeatText, DeviceFile, ReadableText;
    DeviceFileReadable(d.file);
    SmartReadable(d);
    if d.temperature.Some? {
      HeatReadable(d.temperature.value);
    }
    var fs := OfDisk(d, t);
    if OffendingDisk(d, t) {
      assert fs[0] in fs && !Readable(fs[0]);
    }
  }

  lemma VolumeReadable(v: Volume, t: Thresholds)
    requires AcceptedVolume(v)
    ensures (exists f :: f in OfVolume(v, t) && !Readable(f)) <==> OffendingVolume(v, t)
  {
    hide Used, CapacityText, DeviceFile, ReadableText;
    DeviceFileReadable(v.file);
    UsedSmall(v);
    CapacityReadable(Label(v), Used(v));
    NoPathInNothing();
    var fs := OfVolume(v, t);
    if OffendingVolume(v, t) {
      assert fs[0] in fs && !Readable(fs[0]);
    }
  }

  lemma ArrayReadable(a: Array)
    requires AcceptedArray(a)
    ensures (exists f :: f in OfArray(a) && !Readable(f)) <==> OffendingArray(a)
  {
    hide RaidText, DeviceFile, ReadableText;
    DeviceFileReadable(a.file);
    var fs := OfArray(a);
    if !a.status.Fine? {
      RaidReadable(a);
      assert fs[0] in fs;
    }
  }

  lemma {:induction false} VolumeRaises(vs: seq<Volume>, t: Thresholds, f: Finding)
    ensures f in OfVolumes(vs, t) <==> exists i :: 0 <= i < |vs| && f in OfVolume(vs[i], t)
  {
    hide OfVolume;
    if vs != [] {
      VolumeRaises(vs[1..], t, f);
      if f in OfVolume(vs[0], t) {
        assert f in OfVolumes(vs, t);
      } else if i :| 0 <= i < |vs| && f in OfVolume(vs[i], t) {
        assert vs[1..][i - 1] == vs[i];
      }
    }
  }

  lemma {:induction false} ArrayRaises(list: seq<Array>, f: Finding)
    ensures f in OfArrays(list) <==> exists i :: 0 <= i < |list| && f in OfArray(list[i])
  {
    hide OfArray;
    if list != [] {
      ArrayRaises(list[1..], f);
      if f in OfArray(list[0]) {
        assert f in OfArrays(list);
      } else if i :| 0 <= i < |list| && f in OfArray(list[i]) {
        assert list[1..][i - 1] == list[i];
      }
    }
  }

  lemma DisksReadable(ds: seq<Disk>, t: Thresholds)
    requires forall d :: d in ds ==> AcceptedDisk(d)
    ensures (exists f :: f in OfDisks(ds, t) && !Readable(f)) <==> exists d :: d in ds && OffendingDisk(d, t)
  {
    hide OfDisk, OfDisks, OffendingDisk, AcceptedDisk, Readable;
    if f :| f in OfDisks(ds, t) && !Readable(f) {
      DiskRaises(ds, t, f);
      var i :| 0 <= i < |ds| && f in OfDisk(ds[i], t);
      DiskReadable(ds[i], t);
    }
    if d :| d in ds && OffendingDisk(d, t) {
      DiskReadable(d, t);
      var f :| f in OfDisk(d, t) && !Readable(f);
      DiskRaises(ds, t, f);
    }
  }

  lemma VolumesReadable(vs: seq<Volume>, t: Thresholds)
    requires forall v :: v in vs ==> AcceptedVolume(v)
    ensures (exists f :: f in OfVolumes(vs, t) && !Readable(f)) <==> exists v :: v in vs && OffendingVolume(v, t)
  {
    hide OfVolume, OfVolumes, OffendingVolume, AcceptedVolume, Readable;
    if f :| f in OfVolumes(vs, t) && !Readable(f) {
      VolumeRaises(vs, t, f);
      var i :| 0 <= i < |vs| && f in OfVolume(vs[i], t);
      VolumeReadable(vs[i], t);
    }
    if v :| v in vs && OffendingVolume(v, t) {
      VolumeReadable(v, t);
      var f :| f in OfVolume(v, t) && !Readable(f);
      VolumeRaises(vs, t, f);
    }
  }

  lemma ArraysReadable(list: seq<Array>)
    requires forall a :: a in list ==> AcceptedArray(a)
    ensures (exists f :: f in OfArrays(list) && !Readable(f)) <==> exists a :: a in list && OffendingArray(a)
  {
    hide OfArray, OfArrays, OffendingArray, AcceptedArray, Readable;
    if f :| f in OfArrays(list) && !Readable(f) {
      ArrayRaises(list, f);
      var i :| 0 <= i < |list| && f in OfArray(list[i]);
      ArrayReadable(list[i]);
    }
    if a :| a in list && OffendingArray(a) {
      ArrayReadable(a);
      var f :| f in OfArray(a) && !Readable(f);
      ArrayRaises(list, f);
    }
  }

  /** Of the views that the client lets through, exactly those raise an alert that cannot
      be read back in which a raising entry carries a by-id path in its device file, its
      health or its label. */
  lemma UnreadableIffOffending(v: Views, t: Thresholds)
    requires Accepted(v) && Derive(v, t).Some?
    ensures (exists f :: f in Derive(v, t).value && !Readable(f)) <==> Offends(v, t)
  {
    hide OfDisks, OfVolumes, OfArrays, OffendingDisk, OffendingVolume, OffendingArray, Readable;
    hide AcceptedDisk, AcceptedVolume, AcceptedArray;
    DisksReadable(v.disks, t);
    VolumesReadable(v.volumes, t);
    ArraysReadable(v.arrays);
    var all := OfDisks(v.disks, t) + OfVolumes(v.volumes, t) + OfArrays(v.arrays);
    assert forall f :: f in all <==> f in OfDisks(v.disks, t) || f in OfVolumes(v.volumes, t) || f in OfArrays(v.arrays);
    forall f ensures f in Derive(v, t).value <==> f in all {
      assert f in Graded(all, f.critical) <==> f in all;
    }
  }
}
