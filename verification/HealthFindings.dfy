/** Which alerts a reading raises, kind by kind and with which severity and text. */
module HealthFindings {
  import opened Decimals
  import opened HealthAlerts
  import opened Texts
  import opened Wrappers

  lemma {:induction false} DiskFindings(ds: seq<Disk>, t: Thresholds, f: Finding)
    ensures f in OfDisks(ds, t) <==> exists d :: d in ds && f in OfDisk(d, t)
  {
    hide OfDisk, OfDisks;
    DiskRaises(ds, t, f);
    if d :| d in ds && f in OfDisk(d, t) {
      var i :| 0 <= i < |ds| && ds[i] == d;
      assert f in OfDisk(ds[i], t);
    }
  }

  lemma VolumeFindings(vs: seq<Volume>, t: Thresholds, f: Finding)
    ensures f in OfVolumes(vs, t) <==> exists v :: v in vs && f in OfVolume(v, t)
  {
    hide OfVolume, OfVolumes;
    VolumeRaises(vs, t, f);
    if v :| v in vs && f in OfVolume(v, t) {
      var i :| 0 <= i < |vs| && vs[i] == v;
      assert f in OfVolume(vs[i], t);
    }
  }

  lemma ArrayFindings(list: seq<Array>, f: Finding)
    ensures f in OfArrays(list) <==> exists a :: a in list && f in OfArray(a)
  {
    hide OfArray, OfArrays;
    ArrayRaises(list, f);
    if a :| a in list && f in OfArray(a) {
      var i :| 0 <= i < |list| && list[i] == a;
      assert f in OfArray(list[i]);
    }
  }

  /** What a reading reports is what its entries raise, unless it is too much. */
  lemma Reported(v: Views, t: Thresholds, f: Finding)
    requires Derive(v, t).Some?
    ensures f in Derive(v, t).value <==>
            f in OfDisks(v.disks, t) || f in OfVolumes(v.volumes, t) || f in OfArrays(v.arrays)
  {
    hide OfDisks, OfVolumes, OfArrays;
    var all := OfDisks(v.disks, t) + OfVolumes(v.volumes, t) + OfArrays(v.arrays);
    assert f in Graded(all, f.critical) <==> f in all;
  }

  /** A disk is hot from the warning threshold on, and critically hot from the critical one. */
  predicate Hot(d: Disk, t: Thresholds, critical: bool) {
    && d.temperature.Some? && d.temperature.value >= t.warmAt
    && (critical <==> d.temperature.value >= t.hotAt)
  }

  function HeatMessage(d: Disk): string {
    Take("磁盘温度为 " + Signed(if d.temperature.Some? then d.temperature.value else 0) + "°C", 512)
  }

  lemma OneTemperature(d: Disk, t: Thresholds, f: Finding)
    ensures f in OfDisk(d, t) && f.id.code == Temperature <==>
            && f.id == Id(Temperature, d.file) && Hot(d, t, f.critical)
            && f.message == HeatMessage(d)
  {
    hide HealthySmart, Signed;
  }

  /** Temperature alerts: exactly for the disks that are hot, with the degree of it. */
  lemma TemperatureAlertIff(v: Views, t: Thresholds, file: string, critical: bool)
    requires Derive(v, t).Some?
    ensures (exists f :: f in Derive(v, t).value && f.id == Id(Temperature, file) && f.critical == critical)
            <==> exists d :: d in v.disks && d.file == file && Hot(d, t, critical)
  {
    hide OfDisk, OfDisks, OfVolumes, OfArrays, Derive, Hot, HeatText;
    if f :| f in Derive(v, t).value && f.id == Id(Temperature, file) && f.critical == critical {
      Reported(v, t, f);
      OtherCodes(v, t, f);
      DiskFindings(v.disks, t, f);
      var d :| d in v.disks && f in OfDisk(d, t);
      OneTemperature(d, t, f);
    }
    if d :| d in v.disks && d.file == file && Hot(d, t, critical) {
      var f := Finding(Id(Temperature, file), critical, HeatMessage(d));
      OneTemperature(d, t, f);
      DiskFindings(v.disks, t, f);
      Reported(v, t, f);
    }
  }

  lemma OtherCodes(v: Views, t: Thresholds, f: Finding)
    ensures f in OfVolumes(v.volumes, t) ==> f.id.code == Capacity
    ensures f in OfArrays(v.arrays) ==> f.id.code.Raid?
    ensures f in OfDisks(v.disks, t) ==> f.id.code in {Smart, Temperature}
  {
    hide OfDisk, OfDisks, OfVolumes, OfArrays;
    VolumeCodes(v.volumes, t);
    ArrayCodes(v.arrays);
    DiskFindings(v.disks, t, f);
    if d :| d in v.disks && f in OfDisk(d, t) {
      DiskDiffers(d, t);
    }
  }

  /** A used percentage as it is reported, or worked out to the nearest whole, halves to
      the even one; nothing of an empty volume is used. */
  ghost predicate UsedPercent(v: Volume, used: int) {
    if v.used.Some? then used == v.used.value
    else if v.total <= 0 then used == 0
    else
      var part := 100 * (v.total - v.free);
      && -v.total <= 2 * (part - used * v.total) <= v.total
      && (2 * (part - used * v.total) in {v.total, -v.total} ==> used % 2 == 0)
  }

  lemma UsedIs(v: Volume)
    ensures UsedPercent(v, Used(v))
  {
    if v.used.None? && v.total > 0 {
      RoundedIs(v.total - v.free, v.total);
    }
  }

  lemma RoundedIs(part: int, whole: int)
    requires whole > 0
    ensures var p := RoundedPercent(part, whole);
            && -whole <= 2 * (100 * part - p * whole) <= whole
            && (2 * (100 * part - p * whole) in {whole, -whole} ==> p % 2 == 0)
  {
    RoundedFrom(part, whole, 100 * part / whole, 100 * part % whole);
  }

  lemma RoundedFrom(part: int, whole: int, q: int, r: int)
    requires whole > 0 && 100 * part == q * whole + r && 0 <= r < whole
    ensures var p := if 2 * r < whole || (2 * r == whole && q % 2 == 0) then q else q + 1;
            && -whole <= 2 * (100 * part - p * whole) <= whole
            && (2 * (100 * part - p * whole) in {whole, -whole} ==> p % 2 == 0)
  {
    assert (q + 1) * whole == q * whole + whole;
  }

  /** Only one percentage is that near. */
  lemma UsedIsUnique(v: Volume, a: int, b: int)
    requires UsedPercent(v, a) && UsedPercent(v, b)
    ensures a == b
  {
    if v.used.None? && v.total > 0 {
      assert -v.total <= (a - b) * v.total <= v.total by {
        assert (a - b) * v.total == a * v.total - b * v.total;
      }
      NearMultiples(a - b, v.total);
    }
  }

  lemma NearMultiples(k: int, w: int)
    requires w > 0 && -w <= k * w <= w
    ensures -1 <= k <= 1
  {
  }

  /** Capacity alerts: exactly for the volumes used up to the warning threshold, critical
      from the critical one on. */
  lemma CapacityAlertIff(v: Views, t: Thresholds, file: string, critical: bool)
    requires Derive(v, t).Some?
    ensures (exists f :: f in Derive(v, t).value && f.id == Id(Capacity, file) && f.critical == critical)
            <==> exists w, used :: w in v.volumes && w.file == file && UsedPercent(w, used)
                   && used >= t.fullAt && (critical <==> used >= t.veryFullAt)
  {
    hide OfVolume, OfDisks, OfVolumes, OfArrays, Derive, UsedPercent, Used;
    if f :| f in Derive(v, t).value && f.id == Id(Capacity, file) && f.critical == critical {
      Reported(v, t, f);
      OtherCodes(v, t, f);
      VolumeFindings(v.volumes, t, f);
      var w :| w in v.volumes && f in OfVolume(w, t);
      OneCapacity(w, t, f);
      UsedIs(w);
    }
    if w, used :| w in v.volumes && w.file == file && UsedPercent(w, used)
                  && used >= t.fullAt && (critical <==> used >= t.veryFullAt) {
      UsedIs(w);
      UsedIsUnique(w, used, Used(w));
      var f := Finding(Id(Capacity, file), critical, CapacityMessage(w));
      OneCapacity(w, t, f);
      VolumeFindings(v.volumes, t, f);
      Reported(v, t, f);
    }
  }

  function CapacityMessage(v: Volume): string {
    Take("存储卷 " + (if v.title == "" then v.file else v.title) + (" 已使用 " + Signed(Used(v)) + "%"), 512)
  }

  lemma OneCapacity(v: Volume, t: Thresholds, f: Finding)
    ensures f in OfVolume(v, t) <==>
            && f.id == Id(Capacity, v.file) && Used(v) >= t.fullAt && (f.critical <==> Used(v) >= t.veryFullAt)
            && f.message == CapacityMessage(v)
  {
    hide Used, Signed;
  }

  /** RAID alerts: exactly for the arrays that are not fine, critical unless they are
      recovering or being checked. */
  lemma RaidAlertIff(v: Views, t: Thresholds, file: string, status: ArrayStatus, critical: bool)
    requires Derive(v, t).Some?
    ensures (exists f :: f in Derive(v, t).value && f.id == Id(Raid(status), file) && f.critical == critical)
            <==> && status != Fine && (critical <==> status in {Degraded, Inactive, Unknown})
                 && exists a :: a in v.arrays && a.file == file && a.status == status
  {
    hide OfArray, OfDisks, OfVolumes, OfArrays, Derive, RaidText;
    if f :| f in Derive(v, t).value && f.id == Id(Raid(status), file) && f.critical == critical {
      Reported(v, t, f);
      OtherCodes(v, t, f);
      ArrayFindings(v.arrays, f);
      var a :| a in v.arrays && f in OfArray(a);
      OneRaid(a, f);
    }
    if status != Fine && (critical <==> status in {Degraded, Inactive, Unknown}) {
      if a :| a in v.arrays && a.file == file && a.status == status {
        var f := Finding(Id(Raid(status), file), critical, RaidText(status, a.percent));
        OneRaid(a, f);
        ArrayFindings(v.arrays, f);
        Reported(v, t, f);
      }
    }
  }

  lemma OneRaid(a: Array, f: Finding)
    ensures f in OfArray(a) <==>
            && a.status != Fine && f.id == Id(Raid(a.status), a.file)
            && (f.critical <==> a.status in {Degraded, Inactive, Unknown})
            && f.message == RaidText(a.status, a.percent)
  {
    hide RaidText;
  }

  /** A reading reports nothing exactly if it would report more than 128 alerts, and what it
      reports lists all critical alerts before all others. */
  lemma ReportedOrNot(v: Views, t: Thresholds)
    ensures Derive(v, t).None? <==> |OfDisks(v.disks, t)| + |OfVolumes(v.volumes, t)| + |OfArrays(v.arrays)| > 128
    ensures Derive(v, t).Some? ==>
              forall i, j :: 0 <= i < j < |Derive(v, t).value| && Derive(v, t).value[j].critical ==> Derive(v, t).value[i].critical
  {
    hide OfDisks, OfVolumes, OfArrays;
    var all := OfDisks(v.disks, t) + OfVolumes(v.volumes, t) + OfArrays(v.arrays);
    forall f | f in Graded(all, false) ensures !f.critical {
    }
    if Derive(v, t).Some? {
      var a, b := Graded(all, true), Graded(all, false);
      forall i | 0 <= i < |b| ensures !b[i].critical {
        assert b[i] in b;
      }
      forall i | 0 <= i < |a| ensures a[i].critical {
        assert a[i] in a;
      }
    }
  }
}
