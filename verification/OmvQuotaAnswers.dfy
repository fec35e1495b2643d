/** What planning and applying a quota answer on a host that works, and what a limit in
    any unit means. */
module OmvQuotaAnswers {
  import opened OmvCalls
  import opened OmvQuota
  import opened Privileges
  import opened Texts
  import opened Wrappers

  /** The unit in bytes. */
  function Bytes(unit: Unit): real {
    match unit
    case B => 1.0
    case KiB => 1024.0
    case MiB => 1024.0 * 1024.0
    case GiB => 1024.0 * 1024.0 * 1024.0
    case TiB => 1024.0 * 1024.0 * 1024.0 * 1024.0
    case PiB => 1024.0 * 1024.0 * 1024.0 * 1024.0 * 1024.0
    case EiB => 1024.0 * 1024.0 * 1024.0 * 1024.0 * 1024.0 * 1024.0
    case Unknown => 0.0
  }

  lemma FactorIs(unit: Unit)
    requires !unit.Unknown?
    ensures Factor(unit) as real == Bytes(unit) && Bytes(unit) >= 1.0
  {
  }

  /** A limit reads as a number of bytes exactly if the unit is known, it is not negative,
      comes to a whole number of bytes, and fits 63 bits. */
  lemma LimitMeaning(value: Option<real>, unit: Unit, bytes: int)
    ensures LimitBytes(value, unit) == Some(bytes) <==>
            && value.Some? && !unit.Unknown? && value.value * Bytes(unit) == bytes as real
            && 0 <= bytes <= 9_223_372_036_854_775_807
  {
    hide Bytes, LimitBytes, Product;
    if value.Some? && !unit.Unknown? {
      FactorIs(unit);
      LimitUnfolded(value.value, unit, bytes);
      ExactIs(Product(value.value, Factor(unit) as real), bytes);
      ProductIs(value.value, Bytes(unit));
    } else {
      NoLimit(value, unit);
    }
  }

  function Product(x: real, f: real): real {
    x * f
  }

  lemma ProductIs(x: real, f: real)
    requires f >= 1.0
    ensures Product(x, f) == x * f && (x < 0.0 <==> Product(x, f) < 0.0)
  {
  }

  lemma NoLimit(value: Option<real>, unit: Unit)
    requires value.None? || unit.Unknown?
    ensures LimitBytes(value, unit) == None
  {
  }

  lemma LimitUnfolded(x: real, unit: Unit, bytes: int)
    requires !unit.Unknown?
    ensures var y := Product(x, Factor(unit) as real);
            LimitBytes(Some(x), unit) == Some(bytes) <==> x >= 0.0 && y == y.Floor as real && y.Floor == bytes <= MAX_QUOTA
  {
  }

  lemma ExactIs(y: real, bytes: int)
    ensures y == y.Floor as real && y.Floor == bytes <==> y == bytes as real
  {
  }

  /** What the host shows of a subject on a filesystem. */
  datatype View = Unmounted | Unusable | Unread | Unreadable | NotOne | Shown(mount: Mount, limit: int, used: string)

  predicate FirstOf(ms: seq<Mount>, uuid: string, i: int) {
    0 <= i < |ms| && Lower(ms[i].uuid) == uuid && forall k :: 0 <= k < i ==> Lower(ms[k].uuid) != uuid
  }

  /** The rows of the subject, in order. */
  function Own(rows: seq<Row>, who: Principal): (r: seq<Row>)
    ensures forall x :: x in r <==> x in rows && x.who == who
  {
    if rows == [] then [] else (if rows[0].who == who then [rows[0]] else []) + Own(rows[1..], who)
  }

  ghost predicate Readable(row: Row) {
    exists bytes :: ReadsAs(row, bytes)
  }

  predicate ReadsAs(row: Row, bytes: int) {
    row.value.Some? && !row.unit.Unknown? && row.value.value * Bytes(row.unit) == bytes as real
    && 0 <= bytes <= 9_223_372_036_854_775_807
  }

  ghost predicate Shows(h: Host, d: Desired, v: View) {
    var usable := exists i :: FirstOf(h.mounts, d.filesystem, i) && !h.mounts[i].readOnly && h.mounts[i].supportsQuota;
    match v
    case Unmounted => forall i :: 0 <= i < |h.mounts| ==> Lower(h.mounts[i].uuid) != d.filesystem
    case Unusable => exists i :: FirstOf(h.mounts, d.filesystem, i) && (h.mounts[i].readOnly || !h.mounts[i].supportsQuota)
    case Unread => usable && (d.filesystem !in h.quotas || |h.quotas[d.filesystem]| > 2048)
    case Unreadable =>
      && usable && d.filesystem in h.quotas && |h.quotas[d.filesystem]| <= 2048
      && exists x :: x in h.quotas[d.filesystem] && x.who == d.who && !Readable(x)
    case NotOne =>
      && usable && d.filesystem in h.quotas && |h.quotas[d.filesystem]| <= 2048
      && (forall x :: x in h.quotas[d.filesystem] && x.who == d.who ==> Readable(x))
      && |Own(h.quotas[d.filesystem], d.who)| != 1
    case Shown(mount, limit, used) =>
      && (exists i :: FirstOf(h.mounts, d.filesystem, i) && h.mounts[i] == mount) && !mount.readOnly && mount.supportsQuota
      && d.filesystem in h.quotas && |h.quotas[d.filesystem]| <= 2048
      && |Own(h.quotas[d.filesystem], d.who)| == 1
      && var row := Own(h.quotas[d.filesystem], d.who)[0];
      ReadsAs(row, limit) && used == if SafeText(row.used, 64) == "" then "unknown" else SafeText(row.used, 64)
  }

  lemma {:induction false} FindIsFirst(ms: seq<Mount>, uuid: string)
    ensures FindMount(ms, uuid).None? <==> forall i :: 0 <= i < |ms| ==> Lower(ms[i].uuid) != uuid
    ensures forall i :: FirstOf(ms, uuid, i) ==> FindMount(ms, uuid) == Some(ms[i])
    ensures FindMount(ms, uuid).Some? ==> exists i :: FirstOf(ms, uuid, i)
  {
    hide Lower;
    if ms != [] {
      FindIsFirst(ms[1..], uuid);
      assert forall k :: 0 <= k < |ms[1..]| ==> ms[1..][k] == ms[k + 1];
      if Lower(ms[0].uuid) == uuid {
        assert FirstOf(ms, uuid, 0);
      } else {
        forall i | FirstOf(ms, uuid, i) ensures FirstOf(ms[1..], uuid, i - 1) {
        }
        if FindMount(ms, uuid).Some? {
          var i :| FirstOf(ms[1..], uuid, i);
          assert FirstOf(ms, uuid, i + 1);
        }
      }
    }
  }

  lemma RowReads(row: Row)
    ensures SubjectOf(row).Some? <==> Readable(row)
    ensures forall bytes :: ReadsAs(row, bytes) ==>
              SubjectOf(row) == Some(Subject(bytes, if SafeText(row.used, 64) == "" then "unknown" else SafeText(row.used, 64)))
  {
    hide Bytes, SafeText;
    forall bytes ensures ReadsAs(row, bytes) <==> LimitBytes(row.value, row.unit) == Some(bytes) {
      LimitMeaning(row.value, row.unit, bytes);
    }
    if SubjectOf(row).Some? {
      assert ReadsAs(row, LimitBytes(row.value, row.unit).value);
    }
  }

  lemma {:induction false} MatchingReads(rows: seq<Row>, who: Principal)
    ensures Matching(rows, who).Some? <==> forall x :: x in rows && x.who == who ==> Readable(x)
  {
    hide SubjectOf, Readable;
    if rows != [] {
      MatchingReads(rows[1..], who);
      RowReads(rows[0]);
      ReadableFront(rows, who);
    }
  }

  /** The subjects of these rows, one by one. */
  ghost predicate Subjects(own: seq<Row>, ss: seq<Subject>) {
    |own| == |ss| && forall i :: 0 <= i < |own| ==> SubjectOf(own[i]) == Some(ss[i])
  }

  lemma SubjectsFront(row: Row, s: Subject, own: seq<Row>, ss: seq<Subject>)
    requires SubjectOf(row) == Some(s) && Subjects(own, ss)
    ensures Subjects([row] + own, [s] + ss)
  {
    hide SubjectOf;
  }

  lemma {:induction false} MatchingOwn(rows: seq<Row>, who: Principal)
    requires Matching(rows, who).Some?
    ensures Subjects(Own(rows, who), Matching(rows, who).value)
  {
    hide SubjectOf, Subjects;
    if rows == [] {
      assert Subjects([], []) by {
        NoSubjects();
      }
    } else {
      MatchingOwn(rows[1..], who);
      OwnFront(rows, who);
      if rows[0].who == who {
        SubjectsFront(rows[0], SubjectOf(rows[0]).value, Own(rows[1..], who), Matching(rows[1..], who).value);
      } else {
        assert Own(rows, who) == Own(rows[1..], who);
      }
    }
  }

  lemma NoSubjects()
    ensures Subjects([], [])
  {
  }

  lemma OwnFront(rows: seq<Row>, who: Principal)
    requires rows != []
    ensures Own(rows, who) == (if rows[0].who == who then [rows[0]] else []) + Own(rows[1..], who)
  {
  }

  lemma ReadableFront(rows: seq<Row>, who: Principal)
    requires rows != []
    ensures (forall x :: x in rows && x.who == who ==> Readable(x)) <==>
            (rows[0].who == who ==> Readable(rows[0])) && forall x :: x in rows[1..] && x.who == who ==> Readable(x)
  {
    hide Readable;
    assert rows == [rows[0]] + rows[1..];
  }

  lemma CalmCall(e: QuotaEnv, c: Call)
    requires Calm(e.script) && Allowed(c)
    ensures var (e', ok) := Rpc(e, c); ok && Calm(e'.script) && e'.omv == Effect(e.omv, c)
  {
    CalmIsOneFault(e.script);
    SendOneFault(e, c, Effect);
  }

  lemma ReadingAnswers(rows: seq<Row>, who: Principal)
    ensures |rows| > 2048 ==> Reading(rows, who) == Err(Broken)
    ensures |rows| <= 2048 && (exists x :: x in rows && x.who == who && !Readable(x)) ==> Reading(rows, who) == Err(Broken)
    ensures |rows| <= 2048 && (forall x :: x in rows && x.who == who ==> Readable(x)) ==>
              if |Own(rows, who)| != 1 then Reading(rows, who) == Err(Invalid)
              else Reading(rows, who).Ok? && SubjectOf(Own(rows, who)[0]) == Some(Reading(rows, who).value)
  {
    hide SubjectOf, Readable, Matching, Own;
    MatchingReads(rows, who);
    if Matching(rows, who).Some? {
      MatchingOwn(rows, who);
    }
  }

  /** On a host that works, planning refuses unfinished changes, filesystems that are not
      mounted or cannot take quotas, unreadable rows, and subjects without exactly one row;
      otherwise it answers a plan for just this request, based on the limit in bytes that is
      stored now. */
  lemma PlanAnswers(e: QuotaEnv, d: Desired)
    requires Calm(e.script)
    ensures var r, h := PlanOf(e, d).1, e.omv;
            if h.dirty then r == Err(Conflict)
            else
              && (Shows(h, d, Unmounted) ==> r == Err(Invalid))
              && (Shows(h, d, Unusable) ==> r == Err(Conflict))
              && (Shows(h, d, Unread) ==> r == Err(Broken))
              && (Shows(h, d, Unreadable) ==> r == Err(Broken))
              && (Shows(h, d, NotOne) ==> r == Err(Invalid))
              && forall mount, limit, used :: Shows(h, d, Shown(mount, limit, used)) ==>
                   r == Ok(PlanId(mount, Subject(limit, used), d))
  {
    hide Rpc, Calm, Reading, FindMount, SubjectOf, SafeText, ReadsAs, Own, Lower;
    var h := e.omv;
    CalmCall(e, IsDirty);
    var e1 := Rpc(e, IsDirty).0;
    CalmCall(e1, GetMounts);
    var e2 := Rpc(e1, GetMounts).0;
    CalmCall(e2, GetQuota(d.filesystem));
    FindIsFirst(h.mounts, d.filesystem);
    if d.filesystem in h.quotas {
      ReadingAnswers(h.quotas[d.filesystem], d.who);
      forall mount, limit, used | Shows(h, d, Shown(mount, limit, used))
        ensures (forall x :: x in h.quotas[d.filesystem] && x.who == d.who ==> Readable(x))
        ensures SubjectOf(Own(h.quotas[d.filesystem], d.who)[0]) == Some(Subject(limit, used))
      {
        OnlyOwn(h.quotas[d.filesystem], d.who, limit);
        RowReads(Own(h.quotas[d.filesystem], d.who)[0]);
      }
    }
  }

  lemma OnlyOwn(rows: seq<Row>, who: Principal, limit: int)
    requires |Own(rows, who)| == 1 && ReadsAs(Own(rows, who)[0], limit)
    ensures forall x :: x in rows && x.who == who ==> Readable(x)
  {
    hide Own, ReadsAs;
    forall x | x in rows && x.who == who ensures Readable(x) {
      assert x in Own(rows, who);
      assert x == Own(rows, who)[0];
    }
  }

  /** Applying on a host that works: a plan other than the approved one is refused, one that
      changes nothing leaves the host alone, and any other request of whole KiB is applied. */
  lemma ApplyAnswers(e: QuotaEnv, d: Desired, approved: PlanId)
    requires Calm(e.script) && d.limit % 1024 == 0 && 0 <= d.limit <= MAX_QUOTA
    ensures var plan, r := PlanOf(e, d).1, Apply(e, d, approved).1;
            && (plan.Err? ==> r == Err(plan.error))
            && (plan.Ok? && plan.value != approved ==> r == Err(Conflict))
            && (plan == Ok(approved) && approved.subject.limit == d.limit ==>
                  r == Ok(Outcome(approved, false)) && Apply(e, d, approved).0.omv == e.omv)
            && (plan == Ok(approved) && approved.subject.limit != d.limit ==>
                  r == Ok(Outcome(approved, true)) && Held(Apply(e, d, approved).0.omv, d) == Some(d.limit))
  {
    hide ContextOf, Install, Calm, OneFault, Held;
    CalmIsOneFault(e.script);
    ContextKeeps(e, d);
    if PlanOf(e, d).1 == Ok(approved) && approved.subject.limit != d.limit {
      RollbackFailsIffPartialKib(e, d, approved);
      QuotaIsTransactional(e, d, approved);
    }
  }

  /** The six views cover everything a host can show. */
  lemma OneView(h: Host, d: Desired)
    ensures exists v :: Shows(h, d, v)
  {
    hide Lower, SafeText, Own, ReadsAs;
    FindIsFirst(h.mounts, d.filesystem);
    if !Shows(h, d, Unmounted) && !Shows(h, d, Unusable) && !Shows(h, d, Unread)
       && !Shows(h, d, Unreadable) && !Shows(h, d, NotOne) {
      var i :| FirstOf(h.mounts, d.filesystem, i);
      var row := Own(h.quotas[d.filesystem], d.who)[0];
      assert row in Own(h.quotas[d.filesystem], d.who);
      var limit :| ReadsAs(row, limit);
      assert Shows(h, d, Shown(h.mounts[i], limit, if SafeText(row.used, 64) == "" then "unknown" else SafeText(row.used, 64)));
    }
  }
}
