/** The cost-allocation report (`GET /assets`). For personnel and for
    equipment alike it keeps only the share rows whose title is an active
    project title, builds each owner's map from active title to percent
    (0 where the owner has no row), sums the percents without any cap,
    takes that percentage of the owner's base value, and rolls up two
    grand totals. Python's `int()` on the float results truncates toward
    zero; the arithmetic itself is exact here (`real`). */
module Assets {
  import opened Basics
  import opened Projects
  import opened Shares

  /** `int(x)` for a float `x`: truncation toward zero, which for a
      negative non-integer is one above the floor. */
  function Trunc(x: real): (r: int)
    ensures 0.0 <= x ==> r as real <= x < r as real + 1.0
    ensures x < 0.0 ==> r as real - 1.0 < x <= r as real
  {
    if x >= 0.0 then x.Floor else -((-x).Floor)
  }

  /** `float(s.percent or 0)`: a NULL percent counts as 0. */
  function PercentOrZero(s: ShareRow): (v: real)
    ensures s.percent.None? ==> v == 0.0
    ensures s.percent.Some? ==> v == s.percent.value
  {
    s.percent.GetOr(0.0)
  }

  /** Owner id to (active title to percent), as `person_share_map`. */
  type ShareMap = map<int, map<string, real>>

  /** `person_share_map` / `equip_share_map` after the loop over the share
      rows: a row with an inactive title is skipped, and a later row for the
      same owner and title overwrites an earlier one. */
  function ShareMapOf(rows: seq<ShareRow>, active: seq<string>): (m: ShareMap)
    ensures forall id, t :: id in m && t in m[id] ==> t in active
  {
    if rows == [] then map[]
    else
      var m := ShareMapOf(rows[..|rows| - 1], active);
      var s := rows[|rows| - 1];
      if s.title !in active then m
      else m[s.ownerId := (if s.ownerId in m then m[s.ownerId] else map[])[s.title := PercentOrZero(s)]]
  }

  predicate Matches(s: ShareRow, id: int, t: string) {
    s.ownerId == id && s.title == t
  }

  /** The last row for an owner and an active title decides its percent. */
  lemma {:induction false} ShareMapLastWins(rows: seq<ShareRow>, active: seq<string>, id: int, t: string, k: nat)
    requires t in active
    requires k < |rows| && Matches(rows[k], id, t)
    requires forall j :: k < j < |rows| ==> !Matches(rows[j], id, t)
    ensures var m := ShareMapOf(rows, active);
            id in m && t in m[id] && m[id][t] == PercentOrZero(rows[k])
  {
    var init := rows[..|rows| - 1];
    if k < |rows| - 1 {
      assert forall j :: k < j < |init| ==> init[j] == rows[j];
      ShareMapLastWins(init, active, id, t, k);
    }
  }

  /** Without a row for an owner and a title, the map has no entry for it. */
  lemma {:induction false} ShareMapNoRow(rows: seq<ShareRow>, active: seq<string>, id: int, t: string)
    requires forall j :: 0 <= j < |rows| ==> !Matches(rows[j], id, t)
    ensures var m := ShareMapOf(rows, active);
            id !in m || t !in m[id]
  {
    if rows != [] {
      var init := rows[..|rows| - 1];
      assert forall j :: 0 <= j < |init| ==> init[j] == rows[j];
      ShareMapNoRow(init, active, id, t);
    }
  }

  /** The share rows whose title is active. */
  function ActiveRows(rows: seq<ShareRow>, active: seq<string>): seq<ShareRow> {
    Filter(rows, (s: ShareRow) => s.title in active)
  }

  /** Rows for inactive titles contribute nothing: dropping them all leaves
      the map as it was. */
  lemma {:induction false} InactiveRowsIgnored(rows: seq<ShareRow>, active: seq<string>)
    ensures ShareMapOf(ActiveRows(rows, active), active) == ShareMapOf(rows, active)
  {
    if rows != [] {
      var init, last := rows[..|rows| - 1], rows[|rows| - 1];
      InactiveRowsIgnored(init, active);
      var kept := ActiveRows(init, active);
      if last.title in active {
        assert ActiveRows(rows, active) == kept + [last];
        assert (kept + [last])[..|kept|] == kept;
      }
    }
  }

  /** `proj_shares`: every active title, at 0 unless the owner's entry in
      the share map has it. */
  function OwnerShares(active: seq<string>, m: ShareMap, id: int): (shares: map<string, real>)
    ensures shares.Keys == set t | t in active
    ensures forall t :: t in active ==> t in shares
  {
    var zero := map t | t in active :: 0.0;
    if id in m then zero + (map t | t in m[id] && t in zero :: m[id][t]) else zero
  }

  /** `sum(proj_shares.values())`, in the order of the active titles. */
  function SumOver(titles: seq<string>, shares: map<string, real>): real
    requires forall t :: t in titles ==> t in shares
  {
    if titles == [] then 0.0
    else SumOver(titles[..|titles| - 1], shares) + shares[titles[|titles| - 1]]
  }

  /** Non-negative shares sum to a non-negative total, and all-zero shares
      to zero. */
  lemma {:induction false} SumOverBounds(titles: seq<string>, shares: map<string, real>)
    requires forall t :: t in titles ==> t in shares
    ensures (forall t :: t in titles ==> shares[t] >= 0.0) ==> SumOver(titles, shares) >= 0.0
    ensures (forall t :: t in titles ==> shares[t] == 0.0) ==> SumOver(titles, shares) == 0.0
  {
    if titles != [] {
      var init := titles[..|titles| - 1];
      assert forall t :: t in init ==> t in titles;
      SumOverBounds(init, shares);
    }
  }

  /** One line of the report. */
  datatype Row = Row(owner: Owner, shares: map<string, real>, totalPercent: real, totalAmount: int)

  /** `salary * (total_percent / 100.0)` before truncation. */
  function Amount(o: Owner, totalPercent: real): real {
    o.BaseValue() as real * (totalPercent / 100.0)
  }

  /** No share gives nothing, 100 percent gives the whole base value, and a
      non-negative base at a non-negative percent gives a non-negative
      amount. */
  lemma AmountBounds(o: Owner, totalPercent: real)
    ensures totalPercent == 0.0 ==> Amount(o, totalPercent) == 0.0
    ensures totalPercent == 100.0 ==> Amount(o, totalPercent) == o.BaseValue() as real
    ensures o.BaseValue() >= 0 && totalPercent >= 0.0 ==> Amount(o, totalPercent) >= 0.0
  {
  }

  /** One owner's line: its map over the active titles, the sum of that
      map, and the truncated amount of that percentage of its base value. */
  function RowFor(o: Owner, m: ShareMap, active: seq<string>): (row: Row)
    ensures row.owner == o
    ensures row.shares.Keys == set t | t in active
    ensures (forall t :: t in active ==> row.shares[t] >= 0.0) ==> row.totalPercent >= 0.0
    ensures (o.id !in m) ==> row.totalPercent == 0.0 && row.totalAmount == 0
  {
    var shares := OwnerShares(active, m, o.id);
    var totalPercent := SumOver(active, shares);
    SumOverBounds(active, shares);
    Row(o, shares, totalPercent, Trunc(Amount(o, totalPercent)))
  }

  /** A row's `total_amount` is its untruncated amount cut toward zero. */
  lemma RowAmountTruncated(o: Owner, m: ShareMap, active: seq<string>)
    ensures var row := RowFor(o, m, active);
            var a := Amount(o, row.totalPercent);
            (a >= 0.0 ==> row.totalAmount as real <= a < row.totalAmount as real + 1.0)
            && (a < 0.0 ==> row.totalAmount as real - 1.0 < a <= row.totalAmount as real)
  {
  }

  /** The rows, one per owner and in owner order. */
  function Rows(owners: seq<Owner>, m: ShareMap, active: seq<string>): (rows: seq<Row>)
    ensures |rows| == |owners|
  {
    if owners == [] then []
    else Rows(owners[..|owners| - 1], m, active) + [RowFor(owners[|owners| - 1], m, active)]
  }

  /** Row `k` of the report is owner `k`'s row. */
  lemma {:induction false} RowsAt(owners: seq<Owner>, m: ShareMap, active: seq<string>, k: nat)
    requires k < |owners|
    ensures Rows(owners, m, active)[k] == RowFor(owners[k], m, active)
  {
    if k < |owners| - 1 {
      RowsAt(owners[..|owners| - 1], m, active, k);
    }
  }

  /** The running `salary_total`: the sum of the base values. */
  function BaseSum(owners: seq<Owner>): real {
    if owners == [] then 0.0
    else BaseSum(owners[..|owners| - 1]) + owners[|owners| - 1].BaseValue() as real
  }

  /** The running `grand_total`: the sum of the untruncated amounts. */
  function AmountSum(owners: seq<Owner>, m: ShareMap, active: seq<string>): real {
    if owners == [] then 0.0
    else
      var o := owners[|owners| - 1];
      AmountSum(owners[..|owners| - 1], m, active) + Amount(o, RowFor(o, m, active).totalPercent)
  }

  /** With non-negative base values the base total is non-negative. */
  lemma {:induction false} BaseSumNonNegative(owners: seq<Owner>)
    requires forall k :: 0 <= k < |owners| ==> owners[k].BaseValue() >= 0
    ensures BaseSum(owners) >= 0.0
  {
    if owners != [] {
      var init := owners[..|owners| - 1];
      assert forall k :: 0 <= k < |init| ==> init[k] == owners[k];
      BaseSumNonNegative(init);
    }
  }

  /** With no share entry for any owner, the grand total is 0. */
  lemma {:induction false} AmountSumWithoutShares(owners: seq<Owner>, m: ShareMap, active: seq<string>)
    requires forall k :: 0 <= k < |owners| ==> owners[k].id !in m
    ensures AmountSum(owners, m, active) == 0.0
  {
    if owners != [] {
      var init := owners[..|owners| - 1];
      assert forall k :: 0 <= k < |init| ==> init[k] == owners[k];
      AmountSumWithoutShares(init, m, active);
      AmountBounds(owners[|owners| - 1], 0.0);
    }
  }

  datatype Report = Report(
    projects: seq<string>,
    personnelRows: seq<Row>,
    personnelSalaryTotal: int,
    personnelGrandTotal: int,
    equipmentRows: seq<Row>,
    equipmentAcquisitionTotal: int,
    equipmentGrandTotal: int)

  /** The report for one snapshot of the tables and the project list, or
      `None` when looking up the active titles fails (an active project
      without a title). */
  function AssetReport(projects: seq<Project>, people: seq<Owner>, personShares: seq<ShareRow>,
                       equipment: seq<Owner>, equipShares: seq<ShareRow>): (r: Option<Report>)
    ensures r.None? <==> ActiveWithoutTitle(projects)
    ensures r.Some? ==> r.value.projects == ActiveTitles(projects).value
                        && |r.value.personnelRows| == |people| && |r.value.equipmentRows| == |equipment|
  {
    match ActiveTitles(projects)
    case None => None
    case Some(active) =>
      var pm, em := ShareMapOf(personShares, active), ShareMapOf(equipShares, active);
      Some(Report(
        active,
        Rows(people, pm, active), Trunc(BaseSum(people)), Trunc(AmountSum(people, pm, active)),
        Rows(equipment, em, active), Trunc(BaseSum(equipment)), Trunc(AmountSum(equipment, em, active))))
  }

  // ---------------------------------------------------------------------
  // What a row says about an owner

  /** Each row's map has exactly the active titles as keys. */
  lemma RowKeysAreActiveTitles(o: Owner, rows: seq<ShareRow>, active: seq<string>)
    ensures RowFor(o, ShareMapOf(rows, active), active).shares.Keys == set t | t in active
  {
  }

  /** An active title's percent in an owner's row is the percent of the
      owner's last row for that title (0 for a NULL percent). */
  lemma RowShareIsLastRow(o: Owner, rows: seq<ShareRow>, active: seq<string>, t: string, k: nat)
    requires t in active
    requires k < |rows| && Matches(rows[k], o.id, t)
    requires forall j :: k < j < |rows| ==> !Matches(rows[j], o.id, t)
    ensures RowFor(o, ShareMapOf(rows, active), active).shares[t] == PercentOrZero(rows[k])
  {
    ShareMapLastWins(rows, active, o.id, t, k);
  }

  /** An active title without a row for the owner counts 0. */
  lemma RowShareDefaultsToZero(o: Owner, rows: seq<ShareRow>, active: seq<string>, t: string)
    requires t in active
    requires forall j :: 0 <= j < |rows| ==> !Matches(rows[j], o.id, t)
    ensures RowFor(o, ShareMapOf(rows, active), active).shares[t] == 0.0
  {
    ShareMapNoRow(rows, active, o.id, t);
  }

  /** Over-allocation is reported as it is: two active shares of 80 and 70
      give 150 percent and one and a half times the base value. */
  lemma TotalPercentNotCapped()
    ensures var o := Person(7, "n", "d", Some(1000));
            var active := ["A", "B"];
            var rows := [ShareRow(7, "A", Some(80.0)), ShareRow(7, "B", Some(70.0))];
            var row := RowFor(o, ShareMapOf(rows, active), active);
            row.totalPercent == 150.0 && row.totalAmount == 1500
  {
    var o := Person(7, "n", "d", Some(1000));
    var active := ["A", "B"];
    var rows := [ShareRow(7, "A", Some(80.0)), ShareRow(7, "B", Some(70.0))];
    RowShareIsLastRow(o, rows, active, "A", 0);
    RowShareIsLastRow(o, rows, active, "B", 1);
    var shares := RowFor(o, ShareMapOf(rows, active), active).shares;
    assert active[..1] == ["A"] && active[..1][..0] == [];
    assert SumOver(active[..1], shares) == shares["A"];
    assert SumOver(active, shares) == shares["A"] + shares["B"];
  }

  /** A negative base truncates toward zero: -3 at 50 percent is -1.5,
      reported as -1 (a floor would give -2). */
  lemma NegativeAmountTruncatesTowardZero()
    ensures Trunc(Amount(Machine(1, "m", Some(-3), "2024-01-01"), 50.0)) == -1
  {
  }

  /** The grand total truncates the sum of the untruncated amounts, not the
      sum of the truncated row amounts: two owners at 1 and 50 percent each
      have row amounts 0 and 0 but a grand total of 1. */
  lemma GrandTotalTruncatesOnce()
    ensures var active := ["A"];
            var owners := [Person(1, "a", "d", Some(1)), Person(2, "b", "d", Some(1))];
            var rows := [ShareRow(1, "A", Some(50.0)), ShareRow(2, "A", Some(50.0))];
            var m := ShareMapOf(rows, active);
            var r := Rows(owners, m, active);
            r[0].totalAmount + r[1].totalAmount == 0 && Trunc(AmountSum(owners, m, active)) == 1
  {
    var active := ["A"];
    var owners := [Person(1, "a", "d", Some(1)), Person(2, "b", "d", Some(1))];
    var rows := [ShareRow(1, "A", Some(50.0)), ShareRow(2, "A", Some(50.0))];
    var m := ShareMapOf(rows, active);
    RowShareIsLastRow(owners[0], rows, active, "A", 0);
    RowShareIsLastRow(owners[1], rows, active, "A", 1);
    assert active[..0] == [];
    var s0, s1 := OwnerShares(active, m, 1), OwnerShares(active, m, 2);
    assert SumOver(active, s0) == s0["A"] && SumOver(active, s1) == s1["A"];
    var row0, row1 := RowFor(owners[0], m, active), RowFor(owners[1], m, active);
    assert row0.totalPercent == 50.0 && row1.totalPercent == 50.0;
    assert Amount(owners[0], 50.0) == 0.5 && Amount(owners[1], 50.0) == 0.5;
    assert row0.totalAmount == 0 && row1.totalAmount == 0;
    RowsAt(owners, m, active, 0);
    RowsAt(owners, m, active, 1);
    assert owners[..1][..0] == [] && owners[..1] == [owners[0]];
    assert AmountSum(owners[..1], m, active) == 0.5;
    assert AmountSum(owners, m, active) == 1.0;
  }

  /** Row `k` of each half of the report belongs to owner `k` of that
      table, and its map has exactly the report's project titles as keys. */
  lemma ReportRowsFollowOwners(projects: seq<Project>, people: seq<Owner>, personShares: seq<ShareRow>,
                               equipment: seq<Owner>, equipShares: seq<ShareRow>, k: nat)
    requires AssetReport(projects, people, personShares, equipment, equipShares).Some?
    ensures var r := AssetReport(projects, people, personShares, equipment, equipShares).value;
            (k < |people| ==> r.personnelRows[k].owner == people[k]
                              && r.personnelRows[k].shares.Keys == set t | t in r.projects)
            && (k < |equipment| ==> r.equipmentRows[k].owner == equipment[k]
                                    && r.equipmentRows[k].shares.Keys == set t | t in r.projects)
  {
    var active := ActiveTitles(projects).value;
    if k < |people| { RowsAt(people, ShareMapOf(personShares, active), active, k); }
    if k < |equipment| { RowsAt(equipment, ShareMapOf(equipShares, active), active, k); }
  }

  /** A worked case: one person with a salary of 60,000,000 and a 40 percent
      share of project "A", which is in progress, while project "B" is only
      planned. The report lists "A" alone, 40 percent, and 24,000,000. */
  lemma SalaryScenario()
    ensures var projects := [
              Project(1, Some("A"), None, None, None, None, Some(InProgress), None, None, [], "2025-01-01"),
              Project(2, Some("B"), None, None, None, None, Some("신청예정"), None, None, [], "2025-01-01")];
            var people := [Person(1, "p", "d", Some(60000000))];
            var r := AssetReport(projects, people, [ShareRow(1, "A", Some(40.0))], [], []);
            r.Some? && r.value.projects == ["A"]
            && r.value.personnelRows[0].totalPercent == 40.0
            && r.value.personnelRows[0].totalAmount == 24000000
            && r.value.personnelSalaryTotal == 60000000
            && r.value.personnelGrandTotal == 24000000
  {
    var projects := [
      Project(1, Some("A"), None, None, None, None, Some(InProgress), None, None, [], "2025-01-01"),
      Project(2, Some("B"), None, None, None, None, Some("신청예정"), None, None, [], "2025-01-01")];
    var people := [Person(1, "p", "d", Some(60000000))];
    var rows := [ShareRow(1, "A", Some(40.0))];
    var first := projects[..1];
    assert first == [projects[0]] && first[..|first| - 1] == [] && first[|first| - 1] == projects[0];
    assert IsActive(projects[0]) && !IsActive(projects[1]);
    assert ActiveTitleList(first[..|first| - 1]) == Some([]);
    assert [] + ["A"] == ["A"];
    assert ActiveTitleList(first) == Some(["A"]);
    assert projects[..|projects| - 1] == first;
    assert ActiveTitles(projects) == Some(["A"]);
    var active := ["A"];
    var m := ShareMapOf(rows, active);
    RowShareIsLastRow(people[0], rows, active, "A", 0);
    var shares := OwnerShares(active, m, 1);
    assert active[..0] == [];
    assert SumOver(active, shares) == 40.0;
    RowsAt(people, m, active, 0);
    assert people[..0] == [];
    assert Amount(people[0], 40.0) == 24000000.0;
    assert AmountSum(people, m, active) == 24000000.0;
    assert BaseSum(people) == 60000000.0;
  }

  // ---------------------------------------------------------------------
  // The handler

  /** The first loop of `get_assets`, for one kind of owner. */
  method BuildShareMap(rows: seq<ShareRow>, active: seq<string>) returns (m: ShareMap)
    ensures m == ShareMapOf(rows, active)
  {
    m := map[];
    var i := 0;
    while i < |rows|
      invariant 0 <= i <= |rows|
      invariant m == ShareMapOf(rows[..i], active)
    {
      var s := rows[i];
      assert rows[..i + 1][..i] == rows[..i];
      if s.title in active {
        if s.ownerId !in m {
          m := m[s.ownerId := map[]];
        }
        m := m[s.ownerId := m[s.ownerId][s.title := PercentOrZero(s)]];
      }
      i := i + 1;
    }
    assert rows[..|rows|] == rows;
  }

  /** A row is assembled from the owner's map, its sum and the truncated
      amount. */
  lemma RowForParts(o: Owner, m: ShareMap, active: seq<string>)
    ensures var shares := OwnerShares(active, m, o.id);
            var totalPercent := SumOver(active, shares);
            RowFor(o, m, active) == Row(o, shares, totalPercent, Trunc(Amount(o, totalPercent)))
  {
  }

  /** The rows and the two sums over one more owner. */
  lemma PrefixStep(owners: seq<Owner>, m: ShareMap, active: seq<string>, i: nat)
    requires i < |owners|
    ensures var o, next := owners[i], owners[..i + 1];
            Rows(next, m, active) == Rows(owners[..i], m, active) + [RowFor(o, m, active)]
            && BaseSum(next) == BaseSum(owners[..i]) + o.BaseValue() as real
            && AmountSum(next, m, active) == AmountSum(owners[..i], m, active) + Amount(o, RowFor(o, m, active).totalPercent)
  {
    var next := owners[..i + 1];
    assert next[..i] == owners[..i] && next[i] == owners[i];
  }

  /** The second loop of `get_assets`, for one kind of owner: the rows and
      the two running totals. */
  method AllocateRows(owners: seq<Owner>, m: ShareMap, active: seq<string>)
    returns (rows: seq<Row>, baseTotal: real, grandTotal: real)
    ensures rows == Rows(owners, m, active)
    ensures baseTotal == BaseSum(owners)
    ensures grandTotal == AmountSum(owners, m, active)
  {
    rows, baseTotal, grandTotal := [], 0.0, 0.0;
    var i := 0;
    while i < |owners|
      invariant 0 <= i <= |owners|
      invariant rows == Rows(owners[..i], m, active)
      invariant baseTotal == BaseSum(owners[..i])
      invariant grandTotal == AmountSum(owners[..i], m, active)
    {
      var o := owners[i];
      PrefixStep(owners, m, active, i);
      RowForParts(o, m, active);
      var shares := OwnerShares(active, m, o.id);
      var totalPercent := SumOver(active, shares);
      var base := o.BaseValue() as real;
      var amount := Amount(o, totalPercent);
      baseTotal := baseTotal + base;
      grandTotal := grandTotal + amount;
      rows := rows + [Row(o, shares, totalPercent, Trunc(amount))];
      i := i + 1;
    }
    assert owners[..|owners|] == owners;
  }

  /** `get_assets()` over a snapshot of the four tables and the project
      list; `None` is the failure of the active-title lookup. */
  method GetAssets(projects: seq<Project>, people: seq<Owner>, personShares: seq<ShareRow>,
                   equipment: seq<Owner>, equipShares: seq<ShareRow>) returns (report: Option<Report>)
    ensures report == AssetReport(projects, people, personShares, equipment, equipShares)
  {
    var found := ActiveTitles(projects);
    if found.None? {
      return None;
    }
    var active := found.value;
    var pm := BuildShareMap(personShares, active);
    var personnelRows, salaryTotal, personnelGrand := AllocateRows(people, pm, active);
    var em := BuildShareMap(equipShares, active);
    var equipmentRows, acquisitionTotal, equipmentGrand := AllocateRows(equipment, em, active);
    report := Some(Report(active, personnelRows, Trunc(salaryTotal), Trunc(personnelGrand),
                          equipmentRows, Trunc(acquisitionTotal), Trunc(equipmentGrand)));
  }
}
