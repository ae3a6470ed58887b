/**
 Keyset pagination over the jobs table: pages newest first, each continuing below
 the last job of the previous page, while jobs are saved and deleted in between.
 */
module JobPaging {
  import opened Text
  import opened Wrappers
  import opened Sequences

  datatype Job = Job(kind: string, options: string, createdAt: int, tenant: string, progress: string)

  type Jobs = map<string, Job>

  datatype PageError = InvalidCursor

  function TenantOrDefault(tenant: string): string {
    if tenant == "" then "default" else tenant
  }

  /** SaveJob inserts a row, or updates one without touching its type, options or creation time. */
  function Saved(jobs: Jobs, id: string, j: Job): Jobs {
    var row := j.(tenant := TenantOrDefault(j.tenant));
    if id in jobs
    then jobs[id := row.(kind := jobs[id].kind, options := jobs[id].options, createdAt := jobs[id].createdAt)]
    else jobs[id := row]
  }

  datatype Change = Save(id: string, job: Job) | Delete(id: string)

  function Changed(jobs: Jobs, c: Change): Jobs {
    match c
    case Save(id, j) => Saved(jobs, id, j)
    case Delete(id) => jobs - {id}
  }

  function ChangedAll(jobs: Jobs, cs: seq<Change>): Jobs
    decreases |cs|
  {
    if cs == [] then jobs else ChangedAll(Changed(jobs, cs[0]), cs[1..])
  }

  // ---------------------------------------------------------------- pages

  /** Sort key of a job. */
  type Stamp = (int, string)

  function StampOf(jobs: Jobs, id: string): Stamp
    requires id in jobs
  {
    (jobs[id].createdAt, id)
  }

  /** `ORDER BY created_at DESC, id DESC`: `a` is listed before `b`. */
  predicate Newer(a: Stamp, b: Stamp) {
    a.0 > b.0 || (a.0 == b.0 && TextLess(b.1, a.1))
  }

  /** An empty tenant sees every job. */
  predicate Visible(jobs: Jobs, tenant: string, id: string) {
    id in jobs && (tenant == "" || jobs[id].tenant == TenantOrDefault(tenant))
  }

  /** The jobs a page may list: visible, and older than the cursor if there is one. */
  function Below(jobs: Jobs, tenant: string, cursor: string): set<string>
    requires cursor != "" ==> cursor in jobs
  {
    set id | id in jobs && Visible(jobs, tenant, id) &&
             (cursor == "" || Newer(StampOf(jobs, cursor), StampOf(jobs, id)))
  }

  /** `page` is the newest `n` of `ids`, newest first. */
  ghost predicate IsNewest(jobs: Jobs, ids: set<string>, n: nat, page: seq<string>) {
    && (forall id :: id in page ==> id in jobs && id in ids)
    && |page| == (if |ids| < n then |ids| else n)
    && (forall i, j :: 0 <= i < j < |page| ==> Newer(StampOf(jobs, page[i]), StampOf(jobs, page[j])))
    && (forall i, id :: 0 <= i < |page| && id in ids && id in jobs && id !in page ==>
          Newer(StampOf(jobs, page[i]), StampOf(jobs, id)))
  }

  lemma NewerTotal(a: Stamp, b: Stamp)
    ensures a != b ==> Newer(a, b) || Newer(b, a)
    ensures !(Newer(a, b) && Newer(b, a))
  {
    TextLessTotal(a.1, b.1);
  }

  lemma NewerTransitive(a: Stamp, b: Stamp, c: Stamp)
    requires Newer(a, b) && Newer(b, c)
    ensures Newer(a, c)
  {
    if TextLess(b.1, a.1) && TextLess(c.1, b.1) {
      TextLessTransitive(c.1, b.1, a.1);
    }
  }

  /** Pick the newest remaining job, `n` times. */
  method Newest(jobs: Jobs, ids: set<string>, n: nat) returns (page: seq<string>)
    requires ids <= jobs.Keys
    ensures IsNewest(jobs, ids, n, page)
  {
    page := [];
    var rest := ids;
    while |page| < n && rest != {}
      invariant rest <= ids && |page| + |rest| == |ids| && |page| <= n
      invariant forall id :: id in page ==> id in ids && id !in rest
      invariant forall id :: id in ids && id !in rest ==> id in page
      invariant forall i, j :: 0 <= i < j < |page| ==> Newer(StampOf(jobs, page[i]), StampOf(jobs, page[j]))
      invariant forall i, id :: 0 <= i < |page| && id in rest ==> Newer(StampOf(jobs, page[i]), StampOf(jobs, id))
    {
      ghost var _ := NewestExists(jobs, rest);
      var next :| next in rest
        && forall id :: id in rest && id != next ==> Newer(StampOf(jobs, next), StampOf(jobs, id));
      page := page + [next];
      rest := rest - {next};
    }
  }

  lemma {:induction false} NewestExists(jobs: Jobs, ids: set<string>) returns (next: string)
    requires ids != {} && ids <= jobs.Keys
    ensures next in ids && forall id :: id in ids && id != next ==> Newer(StampOf(jobs, next), StampOf(jobs, id))
    decreases ids
  {
    next :| next in ids;
    var rest := ids - {next};
    assert forall id :: id in ids && id != next ==> id in rest;
    if rest != {} {
      var best := NewestExists(jobs, rest);
      NewerTotal(StampOf(jobs, next), StampOf(jobs, best));
      if Newer(StampOf(jobs, best), StampOf(jobs, next)) {
        next := best;
      } else {
        forall id | id in rest && id != best ensures Newer(StampOf(jobs, next), StampOf(jobs, id)) {
          NewerTransitive(StampOf(jobs, next), StampOf(jobs, best), StampOf(jobs, id));
        }
      }
    }
  }

  /** ListJobsPageTenant. */
  method ListJobsPage(jobs: Jobs, limit: int, cursor: string, tenant: string)
    returns (r: Result<seq<string>, PageError>)
    ensures r.Err? <==> cursor != "" && !Visible(jobs, tenant, cursor)
    ensures r.Ok? ==> IsNewest(jobs, Below(jobs, tenant, cursor), if limit <= 0 then 30 else limit, r.value)
  {
    var most := if limit <= 0 then 30 else limit;
    if cursor != "" && !Visible(jobs, tenant, cursor) {
      return Err(InvalidCursor);
    }
    var page := Newest(jobs, Below(jobs, tenant, cursor), most);
    return Ok(page);
  }

  function PageSize(limit: int): nat {
    if limit <= 0 then 30 else if limit > 100 then 100 else limit
  }

  /** One page as the API returns it: the ids, and the cursor of the next page, empty on the last. */
  datatype Page = Page(ids: seq<string>, next: string, hasMore: bool)

  /** The handler asks for one job more than it shows, to learn whether there are more. */
  ghost predicate IsPage(jobs: Jobs, tenant: string, cursor: string, limit: int, page: Page) {
    && (cursor != "" ==> Visible(jobs, tenant, cursor))
    && exists full ::
         IsNewest(jobs, Below(jobs, tenant, cursor), PageSize(limit) + 1, full) && page == Shown(full, limit)
  }

  function Shown(full: seq<string>, limit: int): Page {
    var size := PageSize(limit);
    if |full| > size then Page(full[..size], full[size - 1], true) else Page(full, "", false)
  }

  method HandleJobs(jobs: Jobs, limit: int, cursor: string, tenant: string) returns (r: Result<Page, PageError>)
    ensures r.Err? <==> cursor != "" && !Visible(jobs, tenant, cursor)
    ensures r.Ok? ==> IsPage(jobs, tenant, cursor, limit, r.value)
  {
    var size := limit;
    if size <= 0 {
      size := 30;
    }
    if size > 100 {
      size := 100;
    }
    var listed := ListJobsPage(jobs, size + 1, cursor, tenant);
    if listed.Err? {
      return Err(InvalidCursor);
    }
    var ids := listed.value;
    ghost var full := ids;
    var hasMore := |ids| > size;
    if hasMore {
      ids := ids[..size];
    }
    var next := "";
    if hasMore && |ids| > 0 {
      next := ids[|ids| - 1];
    }
    assert Page(ids, next, hasMore) == Shown(full, limit);
    return Ok(Page(ids, next, hasMore));
  }

  // ---------------------------------------------------------------- walks

  /** One request of a walk: what happened to the table before it, and what it returned. */
  datatype Visit = Visit(changes: seq<Change>, limit: int, page: Page)

  /** A walk so far: every request continues at the cursor the previous one returned. */
  ghost predicate IsWalk(jobs: Jobs, tenant: string, cursor: string, visits: seq<Visit>)
    decreases |visits|
  {
    visits == [] ||
    (var v := visits[0];
     var after := ChangedAll(jobs, v.changes);
     && IsPage(after, tenant, cursor, v.limit, v.page)
     && (if v.page.hasMore then IsWalk(after, tenant, v.page.next, visits[1..]) else visits[1..] == []))
  }

  predicate Finished(visits: seq<Visit>) {
    visits != [] && !visits[|visits| - 1].page.hasMore
  }

  /** Between two requests the job named by the cursor is not deleted. */
  ghost predicate CursorsKept(cursor: string, visits: seq<Visit>)
    decreases |visits|
  {
    visits == [] ||
    (&& (cursor != "" ==> Delete(cursor) !in visits[0].changes)
     && CursorsKept(visits[0].page.next, visits[1..]))
  }

  /** Job ids are never empty: an empty cursor means the first page. */
  ghost predicate IdsNamed(jobs: Jobs, visits: seq<Visit>) {
    "" !in jobs && forall v, c :: v in visits && c in v.changes && c.Save? ==> c.id != ""
  }

  lemma {:induction false} IdsStayNamed(jobs: Jobs, cs: seq<Change>)
    requires "" !in jobs && forall c :: c in cs && c.Save? ==> c.id != ""
    ensures "" !in ChangedAll(jobs, cs)
    decreases |cs|
  {
    if cs != [] {
      assert cs[0] in cs;
      IdsStayNamed(Changed(jobs, cs[0]), cs[1..]);
    }
  }

  /** Everything the walk returned, with the creation time each job had when it was returned. */
  ghost function Listing(jobs: Jobs, visits: seq<Visit>): seq<Stamp>
    decreases |visits|
  {
    if visits == [] then []
    else
      var after := ChangedAll(jobs, visits[0].changes);
      Stamps(after, visits[0].page.ids) + Listing(after, visits[1..])
  }

  ghost function Stamps(jobs: Jobs, ids: seq<string>): seq<Stamp> {
    seq(|ids|, i requires 0 <= i < |ids| => if ids[i] in jobs then StampOf(jobs, ids[i]) else (0, ids[i]))
  }

  /** SaveJob never rewrites a creation time, so only a deletion can change one. */
  lemma {:induction false} CreatedAtKept(jobs: Jobs, cs: seq<Change>, id: string)
    requires id in jobs && Delete(id) !in cs
    ensures id in ChangedAll(jobs, cs) && ChangedAll(jobs, cs)[id].createdAt == jobs[id].createdAt
    decreases |cs|
  {
    if cs != [] {
      assert cs[0] in cs;
      CreatedAtKept(Changed(jobs, cs[0]), cs[1..], id);
    }
  }

  ghost predicate Descending(s: seq<Stamp>) {
    forall i, j :: 0 <= i < j < |s| ==> Newer(s[i], s[j])
  }

  lemma PageMembers(jobs: Jobs, ids: set<string>, limit: int, full: seq<string>, page: Page)
    requires IsNewest(jobs, ids, PageSize(limit) + 1, full) && page == Shown(full, limit)
    ensures forall id :: id in page.ids ==> id in ids && id in jobs
  {
    forall i | 0 <= i < |page.ids| ensures page.ids[i] in ids && page.ids[i] in jobs {
      assert page.ids[i] == full[i] && full[i] in full;
    }
  }

  lemma PageDescends(jobs: Jobs, ids: set<string>, limit: int, full: seq<string>, page: Page)
    requires IsNewest(jobs, ids, PageSize(limit) + 1, full) && page == Shown(full, limit)
    ensures Descending(Stamps(jobs, page.ids))
  {
    forall i, j | 0 <= i < j < |page.ids| ensures Newer(Stamps(jobs, page.ids)[i], Stamps(jobs, page.ids)[j]) {
      assert page.ids[i] == full[i] && full[i] in full && page.ids[j] == full[j] && full[j] in full;
      assert Newer(StampOf(jobs, full[i]), StampOf(jobs, full[j]));
    }
  }

  lemma PageRest(jobs: Jobs, ids: set<string>, limit: int, full: seq<string>, page: Page, id: string)
    requires ids <= jobs.Keys && IsNewest(jobs, ids, PageSize(limit) + 1, full) && page == Shown(full, limit)
    requires id in ids && id !in page.ids
    ensures page.hasMore && page.next in jobs && Newer(StampOf(jobs, page.next), StampOf(jobs, id))
  {
    PeekDecides(jobs, ids, PageSize(limit), full, id);
    assert full[PageSize(limit) - 1] in full;
  }

  /** Facts about one page: its jobs, in order, older than the cursor. */
  lemma PageFacts(jobs: Jobs, tenant: string, cursor: string, limit: int, page: Page)
    requires IsPage(jobs, tenant, cursor, limit, page)
    ensures forall id :: id in page.ids ==> Visible(jobs, tenant, id)
    ensures Descending(Stamps(jobs, page.ids))
    ensures cursor != "" ==> cursor in jobs
    ensures cursor != "" ==> forall id :: id in page.ids ==> Newer(StampOf(jobs, cursor), StampOf(jobs, id))
    ensures page.hasMore ==> page.ids != [] && page.next == page.ids[|page.ids| - 1]
    ensures forall id :: id in Below(jobs, tenant, cursor) && id !in page.ids ==>
              page.hasMore && Newer(StampOf(jobs, page.next), StampOf(jobs, id))
  {
    var ids := Below(jobs, tenant, cursor);
    var full :| IsNewest(jobs, ids, PageSize(limit) + 1, full) && page == Shown(full, limit);
    PageMembers(jobs, ids, limit, full, page);
    PageDescends(jobs, ids, limit, full, page);
    forall id | id in ids && id !in page.ids
      ensures page.hasMore && Newer(StampOf(jobs, page.next), StampOf(jobs, id))
    {
      PageRest(jobs, ids, limit, full, page, id);
    }
  }

  /** With one job more than fits, a job left off the page means there is a next page, and it is older. */
  lemma PeekDecides(jobs: Jobs, ids: set<string>, size: nat, full: seq<string>, id: string)
    requires ids <= jobs.Keys && size > 0 && IsNewest(jobs, ids, size + 1, full)
    requires id in ids && (|full| <= size ==> id !in full) && (|full| > size ==> id !in full[..size])
    ensures |full| > size && Newer(StampOf(jobs, full[size - 1]), StampOf(jobs, id))
  {
    if |full| <= size {
      AllListed(ids, full, jobs);
    } else if id in full {
      var k :| 0 <= k < |full| && full[k] == id;
    }
  }

  lemma AllListed(ids: set<string>, full: seq<string>, jobs: Jobs)
    requires forall id :: id in full ==> id in ids && id in jobs
    requires |full| == |ids|
    requires forall i, j :: 0 <= i < j < |full| ==> Newer(StampOf(jobs, full[i]), StampOf(jobs, full[j]))
    ensures forall id :: id in ids ==> id in full
  {
    forall i, j | 0 <= i < j < |full| ensures full[i] != full[j] {
      NewerTotal(StampOf(jobs, full[i]), StampOf(jobs, full[j]));
    }
    var listed := set id | id in full;
    DistinctSize(full);
    assert listed <= ids;
    SameSize(listed, ids);
  }

  lemma {:induction false} DistinctSize(s: seq<string>)
    requires Distinct(s)
    ensures |set x | x in s| == |s|
    decreases |s|
  {
    if s != [] {
      DistinctSize(s[1..]);
      assert s[0] !in s[1..];
      assert (set x | x in s) == {s[0]} + (set x | x in s[1..]);
    }
  }

  lemma SameSize(a: set<string>, b: set<string>)
    requires a <= b && |a| == |b|
    ensures a == b
  {
    assert b == a + (b - a);
  }

  /** The rest of a walk is a walk from the first page's cursor. */
  lemma WalkTail(jobs: Jobs, tenant: string, cursor: string, visits: seq<Visit>)
    requires visits != [] && IdsNamed(jobs, visits)
    requires IsWalk(jobs, tenant, cursor, visits) && CursorsKept(cursor, visits)
    ensures var v := visits[0];
            var after := ChangedAll(jobs, v.changes);
            && IsPage(after, tenant, cursor, v.limit, v.page) && (cursor != "" ==> Delete(cursor) !in v.changes)
            && IdsNamed(after, visits[1..])
            && (v.page.hasMore ==>
                  IsWalk(after, tenant, v.page.next, visits[1..]) && CursorsKept(v.page.next, visits[1..]))
            && (!v.page.hasMore ==> visits[1..] == [])
            && (Finished(visits) && v.page.hasMore ==> Finished(visits[1..]))
  {
    assert visits[0] in visits;
    IdsStayNamed(jobs, visits[0].changes);
  }

  /** The walk lists strictly older and older jobs, all older than its starting cursor. */
  lemma {:induction false} WalkDescends(jobs: Jobs, tenant: string, cursor: string, visits: seq<Visit>)
    requires IdsNamed(jobs, visits)
    requires IsWalk(jobs, tenant, cursor, visits) && CursorsKept(cursor, visits)
    requires cursor != "" ==> cursor in jobs
    ensures Descending(Listing(jobs, visits))
    ensures cursor != "" ==> forall s :: s in Listing(jobs, visits) ==> Newer(StampOf(jobs, cursor), s)
    decreases |visits|
  {
    if visits != [] {
      var v := visits[0];
      var after := ChangedAll(jobs, v.changes);
      PageFacts(after, tenant, cursor, v.limit, v.page);
      if cursor != "" {
        CreatedAtKept(jobs, v.changes, cursor);
      }
      var here, rest := Stamps(after, v.page.ids), Listing(after, visits[1..]);
      if v.page.hasMore {
        assert v in visits;
        IdsStayNamed(jobs, v.changes);
        WalkDescends(after, tenant, v.page.next, visits[1..]);
        DescendingJoin(here, rest, cursor, jobs);
      }
      forall s | s in here && cursor != "" ensures Newer(StampOf(jobs, cursor), s) {
        var i :| 0 <= i < |here| && here[i] == s;
        assert v.page.ids[i] in v.page.ids;
      }
    }
  }

  lemma DescendingJoin(here: seq<Stamp>, rest: seq<Stamp>, cursor: string, jobs: Jobs)
    requires Descending(here) && Descending(rest) && here != []
    requires forall s :: s in rest ==> Newer(here[|here| - 1], s)
    requires cursor != "" ==> cursor in jobs
    ensures Descending(here + rest)
    ensures cursor != "" && Newer(StampOf(jobs, cursor), here[|here| - 1]) ==>
              forall s :: s in rest ==> Newer(StampOf(jobs, cursor), s)
  {
    var last := here[|here| - 1];
    forall s | s in rest && cursor != "" && Newer(StampOf(jobs, cursor), last) ensures Newer(StampOf(jobs, cursor), s) {
      NewerTransitive(StampOf(jobs, cursor), last, s);
    }
    forall i, s | 0 <= i < |here| && s in rest ensures Newer(here[i], s) {
      if i < |here| - 1 {
        NewerTransitive(here[i], last, s);
      }
    }
    var all := here + rest;
    forall i, j | 0 <= i < j < |all| ensures Newer(all[i], all[j]) {
      if i < |here| <= j {
        assert all[j] == rest[j - |here|] && all[j] in rest;
      }
    }
  }

  /** `id` is never deleted during the walk. */
  ghost predicate NeverDeleted(visits: seq<Visit>, id: string) {
    forall v :: v in visits ==> Delete(id) !in v.changes
  }

  /** How often the walk returned `id`. */
  ghost function Times(s: seq<Stamp>, id: string): nat {
    if s == [] then 0 else (if s[0].1 == id then 1 else 0) + Times(s[1..], id)
  }

  lemma {:induction false} TimesAppend(a: seq<Stamp>, b: seq<Stamp>, id: string)
    ensures Times(a + b, id) == Times(a, id) + Times(b, id)
    decreases |a|
  {
    if a == [] {
      assert a + b == b;
    } else {
      assert (a + b)[1..] == a[1..] + b;
      TimesAppend(a[1..], b, id);
    }
  }

  lemma {:induction false} TimesMember(s: seq<Stamp>, id: string)
    ensures Times(s, id) > 0 <==> exists i :: 0 <= i < |s| && s[i].1 == id
    decreases |s|
  {
    if s != [] {
      TimesMember(s[1..], id);
      if exists i :: 0 <= i < |s| && s[i].1 == id {
        var i :| 0 <= i < |s| && s[i].1 == id;
        assert i > 0 ==> s[1..][i - 1].1 == id;
      }
      if exists i :: 0 <= i < |s[1..]| && s[1..][i].1 == id {
        var i :| 0 <= i < |s[1..]| && s[1..][i].1 == id;
        assert s[i + 1].1 == id;
      }
    }
  }

  lemma PageTimes(jobs: Jobs, ids: seq<string>, id: string)
    ensures Times(Stamps(jobs, ids), id) > 0 <==> id in ids
  {
    var here := Stamps(jobs, ids);
    TimesMember(here, id);
    forall i | 0 <= i < |ids| ensures here[i].1 == ids[i] {
    }
  }

  /** In a strictly descending list, an id that always carries one creation time appears at most once. */
  lemma {:induction false} TimesAtMostOnce(s: seq<Stamp>, id: string, created: int)
    requires Descending(s)
    requires forall x :: x in s && x.1 == id ==> x.0 == created
    ensures Times(s, id) <= 1
    decreases |s|
  {
    if s != [] {
      TimesAtMostOnce(s[1..], id, created);
      TimesMember(s[1..], id);
      if s[0].1 == id && Times(s[1..], id) > 0 {
        var i :| 0 <= i < |s[1..]| && s[1..][i].1 == id;
        assert s[i + 1] in s && s[0] in s && Newer(s[0], s[i + 1]);
        NewerTotal(s[0], s[i + 1]);
      }
    }
  }

  lemma {:induction false} StampFixed(jobs: Jobs, tenant: string, cursor: string, visits: seq<Visit>, id: string)
    requires IsWalk(jobs, tenant, cursor, visits) && NeverDeleted(visits, id) && id in jobs
    ensures forall s :: s in Listing(jobs, visits) && s.1 == id ==> s.0 == jobs[id].createdAt
    decreases |visits|
  {
    if visits != [] {
      var v := visits[0];
      var after := ChangedAll(jobs, v.changes);
      assert v in visits;
      CreatedAtKept(jobs, v.changes, id);
      if v.page.hasMore {
        StampFixed(after, tenant, v.page.next, visits[1..], id);
      }
    }
  }

  /** No job that is not deleted on the way is returned twice. */
  lemma {:induction false} NoJobTwice(jobs: Jobs, tenant: string, cursor: string, visits: seq<Visit>, id: string)
    requires IdsNamed(jobs, visits)
    requires IsWalk(jobs, tenant, cursor, visits) && CursorsKept(cursor, visits)
    requires (cursor != "" ==> cursor in jobs) && NeverDeleted(visits, id)
    ensures Times(Listing(jobs, visits), id) <= 1
    decreases |visits|
  {
    if visits != [] {
      var v := visits[0];
      var after := ChangedAll(jobs, v.changes);
      WalkTail(jobs, tenant, cursor, visits);
      if id in after {
        StampedOnce(jobs, tenant, cursor, visits, id);
      } else {
        assert v in visits;
        PageFacts(after, tenant, cursor, v.limit, v.page);
        TimesAppend(Stamps(after, v.page.ids), Listing(after, visits[1..]), id);
        PageTimes(after, v.page.ids, id);
        if v.page.hasMore {
          NoJobTwice(after, tenant, v.page.next, visits[1..], id);
        }
      }
    }
  }

  /** A job that is in the table at the first page keeps its stamp, so it has one place in the walk. */
  lemma StampedOnce(jobs: Jobs, tenant: string, cursor: string, visits: seq<Visit>, id: string)
    requires visits != [] && IdsNamed(jobs, visits)
    requires IsWalk(jobs, tenant, cursor, visits) && CursorsKept(cursor, visits)
    requires (cursor != "" ==> cursor in jobs) && NeverDeleted(visits, id)
    requires id in ChangedAll(jobs, visits[0].changes)
    ensures Times(Listing(jobs, visits), id) <= 1
  {
    var v := visits[0];
    var after := ChangedAll(jobs, v.changes);
    WalkTail(jobs, tenant, cursor, visits);
    WalkDescends(jobs, tenant, cursor, visits);
    if v.page.hasMore {
      assert forall u :: u in visits[1..] ==> u in visits;
      StampFixed(after, tenant, v.page.next, visits[1..], id);
    }
    forall x | x in Listing(jobs, visits) && x.1 == id ensures x.0 == after[id].createdAt {
      if x in Stamps(after, v.page.ids) {
        var i :| 0 <= i < |v.page.ids| && Stamps(after, v.page.ids)[i] == x;
      } else {
        assert x in Listing(after, visits[1..]);
      }
    }
    TimesAtMostOnce(Listing(jobs, visits), id, after[id].createdAt);
  }

  /** `id` stays in the table, visible to the tenant, during the whole walk. */
  ghost predicate Stays(visits: seq<Visit>, tenant: string, id: string) {
    && NeverDeleted(visits, id)
    && forall v, c :: v in visits && c in v.changes && c.Save? && c.id == id && tenant != "" ==>
         TenantOrDefault(c.job.tenant) == TenantOrDefault(tenant)
  }

  lemma {:induction false} StaysVisible(jobs: Jobs, cs: seq<Change>, tenant: string, id: string)
    requires Visible(jobs, tenant, id) && Delete(id) !in cs
    requires forall c :: c in cs && c.Save? && c.id == id && tenant != "" ==>
               TenantOrDefault(c.job.tenant) == TenantOrDefault(tenant)
    ensures Visible(ChangedAll(jobs, cs), tenant, id)
    decreases |cs|
  {
    if cs != [] {
      assert cs[0] in cs;
      StaysVisible(Changed(jobs, cs[0]), cs[1..], tenant, id);
    }
  }

  /** A job still ahead of the cursor is on the page, or ahead of the page's own cursor. */
  lemma StillAhead(jobs: Jobs, tenant: string, cursor: string, v: Visit, id: string)
    requires IsPage(ChangedAll(jobs, v.changes), tenant, cursor, v.limit, v.page)
    requires cursor != "" ==> Delete(cursor) !in v.changes
    requires Visible(jobs, tenant, id) && Stays([v], tenant, id)
    requires cursor != "" ==> cursor in jobs && Newer(StampOf(jobs, cursor), StampOf(jobs, id))
    ensures var after := ChangedAll(jobs, v.changes);
            && Visible(after, tenant, id)
            && (id !in v.page.ids ==>
                  v.page.hasMore && v.page.next in after && Newer(StampOf(after, v.page.next), StampOf(after, id)))
  {
    var after := ChangedAll(jobs, v.changes);
    assert v in [v];
    PageFacts(after, tenant, cursor, v.limit, v.page);
    StaysVisible(jobs, v.changes, tenant, id);
    CreatedAtKept(jobs, v.changes, id);
    if cursor != "" {
      CreatedAtKept(jobs, v.changes, cursor);
    }
    if id !in v.page.ids {
      assert id in Below(after, tenant, cursor);
    }
  }

  lemma StaysLater(visits: seq<Visit>, tenant: string, id: string)
    requires visits != [] && Stays(visits, tenant, id)
    ensures Stays([visits[0]], tenant, id) && Stays(visits[1..], tenant, id)
  {
    assert forall v :: v in [visits[0]] ==> v in visits;
    assert forall v :: v in visits[1..] ==> v in visits;
  }

  lemma {:induction false} NoneMissed(jobs: Jobs, tenant: string, cursor: string, visits: seq<Visit>, id: string)
    requires IdsNamed(jobs, visits)
    requires IsWalk(jobs, tenant, cursor, visits) && CursorsKept(cursor, visits) && Finished(visits)
    requires Visible(jobs, tenant, id) && Stays(visits, tenant, id)
    requires cursor != "" ==> cursor in jobs && Newer(StampOf(jobs, cursor), StampOf(jobs, id))
    ensures Times(Listing(jobs, visits), id) >= 1
    decreases |visits|
  {
    var v := visits[0];
    var after := ChangedAll(jobs, v.changes);
    WalkTail(jobs, tenant, cursor, visits);
    StaysLater(visits, tenant, id);
    StillAhead(jobs, tenant, cursor, v, id);
    TimesAppend(Stamps(after, v.page.ids), Listing(after, visits[1..]), id);
    PageTimes(after, v.page.ids, id);
    if id !in v.page.ids {
      NoneMissed(after, tenant, v.page.next, visits[1..], id);
    }
  }

  /**
   A finished walk from the start returns every job that stays throughout exactly once,
   and lists strictly older and older jobs, whatever else is saved or deleted meanwhile.
   */
  lemma WalkIsComplete(jobs: Jobs, tenant: string, visits: seq<Visit>, id: string)
    requires IdsNamed(jobs, visits)
    requires IsWalk(jobs, tenant, "", visits) && CursorsKept("", visits) && Finished(visits)
    requires Visible(jobs, tenant, id) && Stays(visits, tenant, id)
    ensures Times(Listing(jobs, visits), id) == 1
    ensures Descending(Listing(jobs, visits))
  {
    WalkDescends(jobs, tenant, "", visits);
    NoneMissed(jobs, tenant, "", visits, id);
    NoJobTwice(jobs, tenant, "", visits, id);
  }

  // --------------------------------------------------------- in plain terms

  /** Newest first; jobs created at once go down in id. */
  lemma NewerMeans(a: Stamp, b: Stamp)
    ensures Newer(a, b) ==> a.0 >= b.0
    ensures a.0 > b.0 ==> Newer(a, b)
    ensures a.0 == b.0 ==> (Newer(a, b) <==> TextLess(b.1, a.1))
  {
  }

  /** A page shows 30 jobs by default, never more than 100, and is full when there are more. */
  lemma PageSizes(jobs: Jobs, tenant: string, cursor: string, limit: int, page: Page)
    requires IsPage(jobs, tenant, cursor, limit, page)
    ensures |page.ids| <= (if limit <= 0 then 30 else if limit > 100 then 100 else limit)
    ensures page.hasMore ==> |page.ids| == (if limit <= 0 then 30 else if limit > 100 then 100 else limit)
    ensures !page.hasMore ==> page.next == "" && |page.ids| == |Below(jobs, tenant, cursor)|
  {
  }

  /** Two tenants never see the same job. */
  lemma TenantsApart(jobs: Jobs, a: string, b: string, id: string)
    requires a != "" && b != "" && a != b && Visible(jobs, a, id)
    ensures !Visible(jobs, b, id)
  {
  }

  /** Every tenant's name is its own, and a job saved without one belongs to the tenant called default. */
  lemma {:induction false} SavedFor(jobs: Jobs, cs: seq<Change>, id: string, tenant: string)
    requires tenant != "" && Visible(ChangedAll(jobs, cs), tenant, id)
    ensures Visible(jobs, tenant, id)
            || exists c :: c in cs && c.Save? && c.id == id
                 && (c.job.tenant == tenant || (c.job.tenant == "" && tenant == "default"))
    decreases |cs|
  {
    if cs != [] {
      SavedFor(Changed(jobs, cs[0]), cs[1..], id, tenant);
      assert cs[0] in cs;
      if c :| c in cs[1..] && c.Save? && c.id == id
              && (c.job.tenant == tenant || (c.job.tenant == "" && tenant == "default")) {
        assert c in cs;
      }
    }
  }

  /** A tenant's walk lists only jobs that are that tenant's when they are listed. */
  lemma WalkStaysInTenant(jobs: Jobs, tenant: string, cursor: string, visits: seq<Visit>, id: string)
    requires tenant != "" && visits != [] && IsWalk(jobs, tenant, cursor, visits) && id in visits[0].page.ids
    ensures var after := ChangedAll(jobs, visits[0].changes); id in after && after[id].tenant == tenant
  {
    PageFacts(ChangedAll(jobs, visits[0].changes), tenant, cursor, visits[0].limit, visits[0].page);
  }

  /** Saving a known job leaves its kind, options and creation time, and touches no other job. */
  lemma SavedMeans(jobs: Jobs, id: string, j: Job)
    ensures var after := Saved(jobs, id, j);
            && after.Keys == jobs.Keys + {id} && after[id].progress == j.progress
            && after[id].tenant == (if j.tenant == "" then "default" else j.tenant)
            && (id in jobs ==>
                  && after[id].createdAt == jobs[id].createdAt && after[id].kind == jobs[id].kind
                  && after[id].options == jobs[id].options)
            && (id !in jobs ==> after[id].createdAt == j.createdAt && after[id].kind == j.kind)
            && forall k :: k in jobs && k != id ==> after[k] == jobs[k]
  {
  }
}
