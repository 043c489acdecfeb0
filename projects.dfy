/** The project list. Projects live in a process-wide in-memory list
    (`PROJECTS`), seeded with two entries and changed in place by the
    project endpoints; the cost-allocation report reads the titles of its
    active projects from it. A project is a free-form JSON object: every
    descriptive field is optional here, `None` meaning the key is absent. */
module Projects {
  import opened Basics

  /** The two status strings that make a project active: "in progress" and
      "applied". */
  const InProgress: string := "진행중"
  const Applied: string := "신청완료"

  datatype Project = Project(
    id: int,
    title: Option<string>,
    organization: Option<string>,
    kind: Option<string>,
    period: Option<string>,
    budget: Option<real>,
    status: Option<string>,
    dueDate: Option<string>,
    participants: Option<string>,
    files: seq<string>,
    lastUpdated: string)

  /** A request body: the keys it carries. `id` and `files` may appear in a
      body too, and `dict.update` would copy them like any other key. */
  datatype ProjectFields = ProjectFields(
    id: Option<int>,
    title: Option<string>,
    organization: Option<string>,
    kind: Option<string>,
    period: Option<string>,
    budget: Option<real>,
    status: Option<string>,
    dueDate: Option<string>,
    participants: Option<string>,
    files: Option<seq<string>>)

  // ---------------------------------------------------------------------
  // Active project titles

  /** `p.get("status") in {"진행중", "신청완료"}`; an absent status is not active. */
  predicate IsActive(p: Project) {
    p.status == Some(InProgress) || p.status == Some(Applied)
  }

  /** Some active project carries title `t`. */
  predicate HasActiveTitle(ps: seq<Project>, t: string) {
    exists k :: 0 <= k < |ps| && IsActive(ps[k]) && ps[k].title == Some(t)
  }

  /** Some active project has no `title` key, so `p["title"]` raises. */
  predicate ActiveWithoutTitle(ps: seq<Project>) {
    exists k :: 0 <= k < |ps| && IsActive(ps[k]) && ps[k].title.None?
  }

  /** The comprehension `[p["title"] for p in PROJECTS if active]`, in list
      order, or `None` for the `KeyError`. */
  function ActiveTitleList(ps: seq<Project>): (r: Option<seq<string>>)
    ensures r.None? <==> ActiveWithoutTitle(ps)
    ensures r.Some? ==> forall t :: t in r.value <==> HasActiveTitle(ps, t)
  {
    if ps == [] then Some([])
    else
      var init, p := ps[..|ps| - 1], ps[|ps| - 1];
      assert forall k :: 0 <= k < |init| ==> init[k] == ps[k];
      match ActiveTitleList(init)
      case None => None
      case Some(ts) =>
        if !IsActive(p) then Some(ts)
        else if p.title.None? then None
        else Some(ts + [p.title.value])
  }

  /** `get_active_project_titles()`: the distinct active titles. */
  function ActiveTitles(ps: seq<Project>): (r: Option<seq<string>>)
    ensures r.None? <==> ActiveWithoutTitle(ps)
    ensures r.Some? ==> NoDup(r.value)
    ensures r.Some? ==> forall t :: t in r.value <==> HasActiveTitle(ps, t)
  {
    match ActiveTitleList(ps)
    case None => None
    case Some(ts) => Some(Dedup(ts))
  }

  /** Removing the last project either keeps the title list or, when that
      project is active and its title is new, appends the title. */
  lemma ActiveTitlesSnoc(ps: seq<Project>)
    requires ps != [] && ActiveTitles(ps).Some?
    ensures ActiveTitles(ps[..|ps| - 1]).Some?
    ensures var r, r' := ActiveTitles(ps).value, ActiveTitles(ps[..|ps| - 1]).value;
            r == r' || (IsActive(ps[|ps| - 1]) && ps[|ps| - 1].title.Some?
                        && ps[|ps| - 1].title.value !in r' && r == r' + [ps[|ps| - 1].title.value])
  {
    var init, p := ps[..|ps| - 1], ps[|ps| - 1];
    var ts' := ActiveTitleList(init).value;
    if IsActive(p) {
      var t := p.title.value;
      assert (ts' + [t])[..|ts'|] == ts';
    }
  }

  /** Titles come out in the order in which they first occur among the
      active projects: for any two positions `i < j` of the result, some
      prefix of the list already has an active project titled `r[i]` and
      none titled `r[j]`. */
  lemma {:induction false} ActiveTitlesFirstOccurrenceOrder(ps: seq<Project>, i: nat, j: nat)
    requires ActiveTitles(ps).Some?
    requires i < j < |ActiveTitles(ps).value|
    ensures exists n :: 0 <= n <= |ps|
              && HasActiveTitle(ps[..n], ActiveTitles(ps).value[i])
              && !HasActiveTitle(ps[..n], ActiveTitles(ps).value[j])
  {
    var init := ps[..|ps| - 1];
    ActiveTitlesSnoc(ps);
    var r, r' := ActiveTitles(ps).value, ActiveTitles(init).value;
    if j < |r'| {
      ActiveTitlesFirstOccurrenceOrder(init, i, j);
      var n :| 0 <= n <= |init| && HasActiveTitle(init[..n], r'[i]) && !HasActiveTitle(init[..n], r'[j]);
      assert init[..n] == ps[..n];
    } else {
      assert r[i] in r' && r[j] !in r';
      assert init == ps[..|init|];
    }
  }

  // ---------------------------------------------------------------------
  // Looking projects up, numbering new ones

  /** The first project with this id, as `next(...)` and the update loop
      find it. */
  function FindProject(ps: seq<Project>, id: int): (r: Option<nat>)
    ensures r.Some? ==> r.value < |ps| && ps[r.value].id == id
    ensures r.Some? ==> forall j :: 0 <= j < r.value ==> ps[j].id != id
    ensures r.None? <==> forall j :: 0 <= j < |ps| ==> ps[j].id != id
  {
    FirstWhere(ps, (p: Project) => p.id == id)
  }

  function MaxId(ps: seq<Project>): (m: int)
    requires ps != []
    ensures forall k :: 0 <= k < |ps| ==> ps[k].id <= m
    ensures exists k :: 0 <= k < |ps| && ps[k].id == m
  {
    if |ps| == 1 then ps[0].id
    else
      var m := MaxId(ps[..|ps| - 1]);
      assert forall k :: 0 <= k < |ps| - 1 ==> ps[..|ps| - 1][k] == ps[k];
      if ps[|ps| - 1].id > m then ps[|ps| - 1].id else m
  }

  /** `max(p["id"] for p in PROJECTS) + 1 if PROJECTS else 1`. */
  function NextId(ps: seq<Project>): (n: int)
    ensures forall k :: 0 <= k < |ps| ==> ps[k].id < n
    ensures ps == [] ==> n == 1
    ensures ps != [] ==> exists k :: 0 <= k < |ps| && ps[k].id == n - 1
  {
    if ps == [] then 1 else MaxId(ps) + 1
  }

  /** The project `add_project` stores: the body's keys, a fresh id, no
      files, today's date; an `id` or `files` key in the body is overwritten. */
  function NewProject(ps: seq<Project>, f: ProjectFields, today: string): (q: Project)
    ensures q.id == NextId(ps)
    ensures forall k :: 0 <= k < |ps| ==> ps[k].id < q.id
    ensures q.files == [] && q.lastUpdated == today
    ensures q.title == f.title && q.organization == f.organization && q.kind == f.kind
    ensures q.period == f.period && q.budget == f.budget && q.status == f.status
    ensures q.dueDate == f.dueDate && q.participants == f.participants
  {
    Project(NextId(ps), f.title, f.organization, f.kind, f.period, f.budget,
            f.status, f.dueDate, f.participants, [], today)
  }

  /** The project just added is the only one with its id. */
  lemma AddedProjectIdUnique(ps: seq<Project>, f: ProjectFields, today: string)
    ensures var q := NewProject(ps, f, today);
            FindProject(ps + [q], q.id) == Some(|ps|)
            && forall k :: 0 <= k < |ps| ==> ps[k].id != q.id
  {
    var q := NewProject(ps, f, today);
    var r := FindProject(ps + [q], q.id);
    assert (ps + [q])[|ps|] == q;
    assert forall k :: 0 <= k < |ps| ==> (ps + [q])[k] == ps[k];
  }

  // ---------------------------------------------------------------------
  // Updating, deleting, attaching files

  /** `p.update(body)` followed by `p["last_updated"] = today`: each key
      present in the body overrides, every other key stays. */
  function Merge(p: Project, f: ProjectFields, today: string): (q: Project)
    ensures q.lastUpdated == today
    ensures f.id.Some? ==> q.id == f.id.value
    ensures f.id.None? ==> q.id == p.id
    ensures f.files.Some? ==> q.files == f.files.value
    ensures f.files.None? ==> q.files == p.files
    ensures q.title == (if f.title.Some? then f.title else p.title)
    ensures q.organization == (if f.organization.Some? then f.organization else p.organization)
    ensures q.kind == (if f.kind.Some? then f.kind else p.kind)
    ensures q.period == (if f.period.Some? then f.period else p.period)
    ensures q.budget == (if f.budget.Some? then f.budget else p.budget)
    ensures q.status == (if f.status.Some? then f.status else p.status)
    ensures q.dueDate == (if f.dueDate.Some? then f.dueDate else p.dueDate)
    ensures q.participants == (if f.participants.Some? then f.participants else p.participants)
  {
    Project(
      f.id.GetOr(p.id), f.title.OrElse(p.title), f.organization.OrElse(p.organization),
      f.kind.OrElse(p.kind), f.period.OrElse(p.period), f.budget.OrElse(p.budget),
      f.status.OrElse(p.status), f.dueDate.OrElse(p.dueDate),
      f.participants.OrElse(p.participants), f.files.GetOr(p.files), today)
  }

  /** Sending the same body twice has the effect of sending it once. */
  lemma MergeIdempotent(p: Project, f: ProjectFields, today: string)
    ensures Merge(Merge(p, f, today), f, today) == Merge(p, f, today)
  {
  }

  /** An empty body only refreshes the date. */
  lemma MergeEmptyBody(p: Project, today: string)
    ensures Merge(p, ProjectFields(None, None, None, None, None, None, None, None, None, None), today)
         == p.(lastUpdated := today)
  {
  }

  /** The list after `update_project(id, body)`: only the first project with
      that id is merged; with none, the list is as it was (the 404 case). */
  function Updated(ps: seq<Project>, id: int, f: ProjectFields, today: string): (r: seq<Project>)
    ensures |r| == |ps|
    ensures FindProject(ps, id).None? ==> r == ps
    ensures FindProject(ps, id).Some? ==>
              var k := FindProject(ps, id).value;
              r[k] == Merge(ps[k], f, today) && forall j :: 0 <= j < |ps| && j != k ==> r[j] == ps[j]
  {
    match FindProject(ps, id)
    case None => ps
    case Some(k) => ps[k := Merge(ps[k], f, today)]
  }

  /** The list after `delete_project(id)`: every project with that id goes. */
  function WithoutId(ps: seq<Project>, id: int): (r: seq<Project>)
    ensures forall p :: p in r <==> p in ps && p.id != id
    ensures forall k :: 0 <= k < |r| ==> r[k].id != id
    ensures |r| < |ps| <==> exists k :: 0 <= k < |ps| && ps[k].id == id
    ensures |r| == |ps| ==> r == ps
  {
    var keep := (p: Project) => p.id != id;
    FilterShrinks(ps, keep);
    assert |Filter(ps, keep)| == |ps| ==> Filter(ps, keep) == ps by {
      if |Filter(ps, keep)| == |ps| { FilterKeepsAll(ps, keep); }
    }
    Filter(ps, keep)
  }

  /** Deletion keeps the order of the survivors: deleting from a
      concatenation deletes from each part. */
  lemma WithoutIdConcat(a: seq<Project>, b: seq<Project>, id: int)
    ensures WithoutId(a + b, id) == WithoutId(a, id) + WithoutId(b, id)
  {
    FilterConcat(a, b, (p: Project) => p.id != id);
  }

  /** A single project survives exactly when its id differs. */
  lemma WithoutIdSingle(p: Project, id: int)
    ensures WithoutId([p], id) == if p.id == id then [] else [p]
  {
    assert [p][..0] == [];
  }

  /** The list after `upload_project_file(id, name)`: the first project
      with that id gets the file name appended and today's date. */
  function WithFile(ps: seq<Project>, id: int, name: string, today: string): (r: seq<Project>)
    ensures |r| == |ps|
    ensures FindProject(ps, id).None? ==> r == ps
    ensures FindProject(ps, id).Some? ==>
              var k := FindProject(ps, id).value;
              r[k] == ps[k].(files := ps[k].files + [name], lastUpdated := today)
              && forall j :: 0 <= j < |ps| && j != k ==> r[j] == ps[j]
  {
    match FindProject(ps, id)
    case None => ps
    case Some(k) => ps[k := ps[k].(files := ps[k].files + [name], lastUpdated := today)]
  }

  // ---------------------------------------------------------------------
  // The seed list and the store

  const SeedProjects: seq<Project> := [
    Project(1, Some("고성능 세라믹 소재 개발"), Some("산업통상자원부"), Some("R&D"),
            Some("2024-01-01 ~ 2026-12-31"), Some(15.0), Some(InProgress), Some("2024-01-10"),
            Some("김철수, 박민수, 이영희"), ["세라믹_계획서.pdf"], "2025-11-27"),
    Project(2, Some("신제품 사업화 지원"), Some("중소벤처기업부"), Some("사업화"),
            Some("2024-07-01 ~ 2025-06-30"), Some(5.0), Some("신청예정"), Some("2024-06-01"),
            Some("이영희, 정다운"), [], "2025-11-20")
  ]

  /** Of the seed projects only the first, "in progress", is active; the
      second is "planned for application". */
  lemma SeedActiveTitles()
    ensures ActiveTitles(SeedProjects) == Some(["고성능 세라믹 소재 개발"])
  {
    var ps := SeedProjects;
    var first := ps[..1];
    assert first[..|first| - 1] == [] && first[|first| - 1] == ps[0];
    assert IsActive(ps[0]) && !IsActive(ps[1]);
    assert first == [ps[0]] && first != [];
    assert ActiveTitleList(first[..|first| - 1]) == Some([]);
    assert [] + [ps[0].title.value] == ["고성능 세라믹 소재 개발"];
    assert ps[0].title == Some("고성능 세라믹 소재 개발");
    assert ActiveTitleList(first) == Some(["고성능 세라믹 소재 개발"]);
    assert ps[..|ps| - 1] == first;
  }

  /** `PROJECTS` and the handlers that change it in place. */
  class ProjectStore {
    var projects: seq<Project>

    constructor ()
      ensures projects == SeedProjects
    {
      projects := SeedProjects;
    }

    /** `add_project(body)`: appends the new project and returns it. */
    method AddProject(f: ProjectFields, today: string) returns (created: Project)
      modifies this
      ensures created == NewProject(old(projects), f, today)
      ensures projects == old(projects) + [created]
    {
      var newId := 1;
      if |projects| > 0 {
        var m := projects[0].id;
        var i := 1;
        while i < |projects|
          invariant 1 <= i <= |projects|
          invariant m == MaxId(projects[..i])
        {
          assert projects[..i + 1][..i] == projects[..i];
          if projects[i].id > m { m := projects[i].id; }
          i := i + 1;
        }
        assert projects[..|projects|] == projects;
        newId := m + 1;
      }
      created := Project(newId, f.title, f.organization, f.kind, f.period, f.budget,
                         f.status, f.dueDate, f.participants, [], today);
      projects := projects + [created];
    }

    /** `update_project(id, body)`: merges into the first project with the
      id and returns it, or `None` (404) leaving the list as it was. */
    method UpdateProject(id: int, f: ProjectFields, today: string) returns (updated: Option<Project>)
      modifies this
      ensures projects == Updated(old(projects), id, f, today)
      ensures updated.None? <==> FindProject(old(projects), id).None?
      ensures updated.Some? ==> updated.value == projects[FindProject(old(projects), id).value]
    {
      var i := 0;
      while i < |projects|
        invariant 0 <= i <= |projects|
        invariant projects == old(projects)
        invariant forall j :: 0 <= j < i ==> projects[j].id != id
      {
        if projects[i].id == id {
          var p := Merge(projects[i], f, today);
          projects := projects[i := p];
          return Some(p);
        }
        i := i + 1;
      }
      return None;
    }

    /** `delete_project(id)`: `deleted` is false exactly for the 404. */
    method DeleteProject(id: int) returns (deleted: bool)
      modifies this
      ensures projects == WithoutId(old(projects), id)
      ensures deleted <==> |projects| < |old(projects)|
      ensures deleted <==> exists k :: 0 <= k < |old(projects)| && old(projects)[k].id == id
    {
      var before := |projects|;
      projects := WithoutId(projects, id);
      deleted := |projects| < before;
    }

    /** The list part of `upload_project_file(id, file)`: `found` is false
        for the 404. */
    method UploadProjectFile(id: int, name: string, today: string) returns (found: bool)
      modifies this
      ensures found <==> FindProject(old(projects), id).Some?
      ensures projects == WithFile(old(projects), id, name, today)
    {
      found := FindProject(projects, id).Some?;
      projects := WithFile(projects, id, name, today);
    }

    /** `list_project_files(id)`: the first matching project's files, or
        `None` for the 404. */
    method ProjectFiles(id: int) returns (files: Option<seq<string>>)
      ensures files.None? <==> forall k :: 0 <= k < |projects| ==> projects[k].id != id
      ensures files.Some? ==> exists k :: 0 <= k < |projects| && projects[k].id == id
                                          && files.value == projects[k].files
                                          && forall j :: 0 <= j < k ==> projects[j].id != id
    {
      match FindProject(projects, id)
      case None => files := None;
      case Some(k) => files := Some(projects[k].files);
    }
  }
}
