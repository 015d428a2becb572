/** Queue statistics: counts per status, gathered from the groups of one query and added up. */
module JobStats {
  import opened JobTables

  function JobsIn(jobs: map<nat, Job>, s: Status): set<nat> {
    set id | id in jobs && jobs[id].status == s
  }

  /** `SELECT COUNT(*) FROM jobs WHERE status = s` */
  function CountOf(jobs: map<nat, Job>, s: Status): nat {
    |JobsIn(jobs, s)|
  }

  datatype Group = Group(status: Status, cnt: nat)

  /** `SELECT status, COUNT(*) ... GROUP BY status`: each status that occurs, once, in any order. */
  ghost predicate IsGrouping(jobs: map<nat, Job>, groups: seq<Group>) {
    && (forall i :: 0 <= i < |groups| ==> groups[i].cnt == CountOf(jobs, groups[i].status) > 0)
    && DistinctGroups(groups)
    && (forall s :: CountOf(jobs, s) > 0 ==> exists i :: 0 <= i < |groups| && groups[i].status == s)
  }

  /** `statusMap[s] ?? 0` */
  function Get(m: map<Status, nat>, s: Status): nat {
    if s in m then m[s] else 0
  }

  function Sum(m: map<Status, nat>): nat {
    Get(m, Pending) + Get(m, Queued) + Get(m, Processing) + Get(m, Completed) + Get(m, Failed)
    + Get(m, DeadLetter) + Get(m, Canceled)
  }

  lemma SumAdd(m: map<Status, nat>, s: Status, n: nat)
    requires s !in m
    ensures Sum(m[s := n]) == Sum(m) + n
  {
    match s
    case Pending =>
    case Queued =>
    case Processing =>
    case Completed =>
    case Failed =>
    case DeadLetter =>
    case Canceled =>
  }

  lemma NoSum()
    ensures Sum(map[]) == 0
  {
  }

  lemma JobsWithout(jobs: map<nat, Job>, id: nat, s: Status)
    requires id in jobs
    ensures JobsIn(jobs - {id}, s) == JobsIn(jobs, s) - {id}
  {
    assert forall i :: i in jobs - {id} <==> i in jobs && i != id;
  }

  lemma CountWithout(jobs: map<nat, Job>, id: nat, s: Status)
    requires id in jobs
    ensures CountOf(jobs, s) == CountOf(jobs - {id}, s) + (if jobs[id].status == s then 1 else 0)
  {
    JobsWithout(jobs, id, s);
    assert id in JobsIn(jobs, s) <==> jobs[id].status == s;
    hide JobsIn;
    if jobs[id].status != s {
      assert JobsIn(jobs, s) - {id} == JobsIn(jobs, s);
    }
  }

  /** Each job has one of the seven statuses. */
  lemma {:induction false} CountsCover(jobs: map<nat, Job>)
    ensures CountOf(jobs, Pending) + CountOf(jobs, Queued) + CountOf(jobs, Processing) + CountOf(jobs, Completed)
            + CountOf(jobs, Failed) + CountOf(jobs, DeadLetter) + CountOf(jobs, Canceled) == |jobs|
    decreases |jobs|
  {
    if jobs.Keys != {} {
      hide CountOf;
      var id :| id in jobs;
      assert |jobs - {id}| == |jobs| - 1 by {
        assert (jobs - {id}).Keys == jobs.Keys - {id};
        assert |jobs.Keys| == |jobs| && |(jobs - {id}).Keys| == |jobs - {id}|;
      }
      CountsCover(jobs - {id});
      CountWithout(jobs, id, Pending);
      CountWithout(jobs, id, Queued);
      CountWithout(jobs, id, Processing);
      CountWithout(jobs, id, Completed);
      CountWithout(jobs, id, Failed);
      CountWithout(jobs, id, DeadLetter);
      CountWithout(jobs, id, Canceled);
    } else {
      NoJobs(jobs);
    }
  }

  lemma NoJobs(jobs: map<nat, Job>)
    requires jobs.Keys == {}
    ensures |jobs| == 0 && forall s :: CountOf(jobs, s) == 0
  {
    assert |jobs.Keys| == |jobs|;
    forall s ensures CountOf(jobs, s) == 0 {
      assert JobsIn(jobs, s) == {};
    }
  }

  lemma JobsInMean(jobs: map<nat, Job>, s: Status)
    ensures CountOf(jobs, s) == |set id | id in jobs && jobs[id].status == s|
  {
    assert JobsIn(jobs, s) == (set id | id in jobs && jobs[id].status == s);
  }

  /** The entries waiting for review. */
  function CountReview(dead: map<nat, DeadRow>): nat {
    |set d | d in dead && dead[d].status.PendingReview?|
  }

  datatype Stats = Stats(totalJobs: nat, pending: nat, queued: nat, processing: nat, completed: nat, failed: nat,
                         deadLetter: nat, canceled: nat)

  /**
   `getStats`: the total is the number of jobs, and is the six reported job counts together with the
   jobs in status `dead_letter`, which are not among them: the reported dead-letter count is that of
   the entries waiting for review.
   */
  method GetStats(t: Tables, groups: seq<Group>) returns (st: Stats)
    requires IsGrouping(t.jobs, groups)
    ensures st.totalJobs == |t.jobs|
    ensures st.pending == |set id | id in t.jobs && t.jobs[id].status == Pending|
    ensures st.queued == |set id | id in t.jobs && t.jobs[id].status == Queued|
    ensures st.processing == |set id | id in t.jobs && t.jobs[id].status == Processing|
    ensures st.completed == |set id | id in t.jobs && t.jobs[id].status == Completed|
    ensures st.failed == |set id | id in t.jobs && t.jobs[id].status == Failed|
    ensures st.canceled == |set id | id in t.jobs && t.jobs[id].status == Canceled|
    ensures st.deadLetter == |set d | d in t.dead && t.dead[d].status == PendingReview|
    ensures st.totalJobs == st.pending + st.queued + st.processing + st.completed + st.failed + st.canceled
                            + |set id | id in t.jobs && t.jobs[id].status == DeadLetter|
  {
    hide CountOf;
    var statusMap, order := FillStatusMap(groups);
    var total := AddUp(statusMap, order);
    forall s ensures Get(statusMap, s) == CountOf(t.jobs, s) {
      GroupCount(t.jobs, groups, statusMap, s);
    }
    CountsCover(t.jobs);
    st := Stats(total, Get(statusMap, Pending), Get(statusMap, Queued), Get(statusMap, Processing),
                Get(statusMap, Completed), Get(statusMap, Failed), CountReview(t.dead), Get(statusMap, Canceled));
    JobsInMean(t.jobs, Pending);
    JobsInMean(t.jobs, Queued);
    JobsInMean(t.jobs, Processing);
    JobsInMean(t.jobs, Completed);
    JobsInMean(t.jobs, Failed);
    JobsInMean(t.jobs, Canceled);
    JobsInMean(t.jobs, DeadLetter);
    assert (set d | d in t.dead && t.dead[d].status == PendingReview)
        == (set d | d in t.dead && t.dead[d].status.PendingReview?);
  }

  predicate DistinctGroups(groups: seq<Group>) {
    forall i, j :: 0 <= i < j < |groups| ==> groups[i].status != groups[j].status
  }

  /** The map holds exactly the groups. */
  ghost predicate Holds(m: map<Status, nat>, groups: seq<Group>) {
    && (forall k :: 0 <= k < |groups| ==> groups[k].status in m && m[groups[k].status] == groups[k].cnt)
    && (forall s :: s in m ==> exists g :: g in groups && g.status == s)
  }

  lemma GroupCount(jobs: map<nat, Job>, groups: seq<Group>, m: map<Status, nat>, s: Status)
    requires IsGrouping(jobs, groups) && Holds(m, groups)
    ensures Get(m, s) == CountOf(jobs, s)
  {
    if CountOf(jobs, s) > 0 {
      var i :| 0 <= i < |groups| && groups[i].status == s;
      assert groups[i].status in m;
    }
  }

  /** `for (const row of statusRows) statusMap[row.status] = Number(row.cnt)`; `order` is the order of insertion. */
  method FillStatusMap(groups: seq<Group>) returns (m: map<Status, nat>, order: seq<Status>)
    requires DistinctGroups(groups)
    ensures Holds(m, groups)
    ensures |order| == |groups| && forall k :: 0 <= k < |groups| ==> order[k] == groups[k].status
  {
    m, order := map[], [];
    for i := 0 to |groups|
      invariant |order| == i && forall k :: 0 <= k < i ==> order[k] == groups[k].status
      invariant Holds(m, groups[..i])
    {
      ghost var before := m;
      m := m[groups[i].status := groups[i].cnt];
      order := order + [groups[i].status];
      assert groups[..i + 1] == groups[..i] + [groups[i]];
      forall s | s in m ensures exists g :: g in groups[..i + 1] && g.status == s {
        if s in before {
          var g :| g in groups[..i] && g.status == s;
          assert g in groups[..i + 1];
        } else {
          assert groups[i] in groups[..i + 1];
        }
      }
    }
    assert groups[..|groups|] == groups;
  }

  /** `Object.values(statusMap).reduce((a, b) => a + b, 0)` */
  method AddUp(m: map<Status, nat>, order: seq<Status>) returns (total: nat)
    requires forall k :: 0 <= k < |order| ==> order[k] in m
    requires forall s :: s in m ==> s in order
    requires forall i, j :: 0 <= i < j < |order| ==> order[i] != order[j]
    ensures total == Sum(m)
  {
    hide Sum;
    NoSum();
    total := 0;
    ghost var seen: map<Status, nat> := map[];
    for i := 0 to |order|
      invariant forall s :: s in seen <==> s in order[..i]
      invariant forall s :: s in seen ==> s in m && seen[s] == m[s]
      invariant total == Sum(seen)
    {
      assert order[..i + 1] == order[..i] + [order[i]];
      SumAdd(seen, order[i], m[order[i]]);
      seen := seen[order[i] := m[order[i]]];
      total := total + m[order[i]];
    }
    assert order[..|order|] == order;
    assert seen == m;
  }
}
