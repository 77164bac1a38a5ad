/** Report documents and the two queries the admin endpoints run over them:
    by status (`status: { $in: [...] }`, or a `filter` on `status`) and by
    assignee (`assignedTechnicianId`). */
module Reports {

  const Pending := "pending"
  const InProgress := "in-progress"
  const Resolved := "resolved"

  /** The three statuses the report lifecycle uses. */
  const KnownStatuses: set<string> := {Pending, InProgress, Resolved}

  /** `assignedTechnicianId` holds the technician's email. The creation time,
      which only orders the collection, is not modelled. */
  datatype Report = Report(status: string, assignedTechnicianId: string)

  /** The reports whose status is one of `statuses`, in their original order. */
  function WithStatus(reports: seq<Report>, statuses: set<string>): (found: seq<Report>)
    ensures |found| <= |reports|
    ensures forall r :: r in found <==> r in reports && r.status in statuses
  {
    if reports == [] then []
    else
      assert forall r :: r in reports <==> r == reports[0] || r in reports[1..];
      (if reports[0].status in statuses then [reports[0]] else []) + WithStatus(reports[1..], statuses)
  }

  /** The reports assigned to the technician with email `tech`, in their original order. */
  function AssignedTo(reports: seq<Report>, tech: string): (found: seq<Report>)
    ensures |found| <= |reports|
    ensures forall r :: r in found <==> r in reports && r.assignedTechnicianId == tech
  {
    if reports == [] then []
    else
      assert forall r :: r in reports <==> r == reports[0] || r in reports[1..];
      (if reports[0].assignedTechnicianId == tech then [reports[0]] else []) + AssignedTo(reports[1..], tech)
  }

  /** The status filter keeps every copy of a report whose status is selected
      and drops every copy of the others. */
  lemma {:induction false} WithStatusMultiplicity(reports: seq<Report>, statuses: set<string>, r: Report)
    ensures multiset(WithStatus(reports, statuses))[r] == if r.status in statuses then multiset(reports)[r] else 0
  {
    if reports != [] {
      assert reports == [reports[0]] + reports[1..];
      WithStatusMultiplicity(reports[1..], statuses, r);
    }
  }

  /** The assignee filter keeps every copy of a report assigned to `tech` and
      drops every copy of the others. */
  lemma {:induction false} AssignedToMultiplicity(reports: seq<Report>, tech: string, r: Report)
    ensures multiset(AssignedTo(reports, tech))[r] == if r.assignedTechnicianId == tech then multiset(reports)[r] else 0
  {
    if reports != [] {
      assert reports == [reports[0]] + reports[1..];
      AssignedToMultiplicity(reports[1..], tech, r);
    }
  }

  /** The status filter keeps order: filtering a concatenation filters each part. */
  lemma {:induction false} WithStatusConcat(a: seq<Report>, b: seq<Report>, statuses: set<string>)
    ensures WithStatus(a + b, statuses) == WithStatus(a, statuses) + WithStatus(b, statuses)
  {
    if a != [] {
      assert (a + b)[1..] == a[1..] + b;
      WithStatusConcat(a[1..], b, statuses);
    } else {
      assert a + b == b;
    }
  }

  /** The assignee filter keeps order: filtering a concatenation filters each part. */
  lemma {:induction false} AssignedToConcat(a: seq<Report>, b: seq<Report>, tech: string)
    ensures AssignedTo(a + b, tech) == AssignedTo(a, tech) + AssignedTo(b, tech)
  {
    if a != [] {
      assert (a + b)[1..] == a[1..] + b;
      AssignedToConcat(a[1..], b, tech);
    } else {
      assert a + b == b;
    }
  }

  /** Selecting by two disjoint sets of statuses splits the selection by their union. */
  lemma {:induction false} WithStatusSplit(reports: seq<Report>, s: set<string>, t: set<string>)
    requires s !! t
    ensures |WithStatus(reports, s + t)| == |WithStatus(reports, s)| + |WithStatus(reports, t)|
  {
    if reports != [] {
      WithStatusSplit(reports[1..], s, t);
    }
  }

  /** When every status is in `statuses`, selecting by them keeps every report. */
  lemma {:induction false} WithStatusAll(reports: seq<Report>, statuses: set<string>)
    requires forall i :: 0 <= i < |reports| ==> reports[i].status in statuses
    ensures WithStatus(reports, statuses) == reports
  {
    if reports != [] {
      WithStatusAll(reports[1..], statuses);
    }
  }

  /** The number of reports with one of the three known statuses is the sum of
      the three single-status counts. */
  lemma KnownStatusCounts(reports: seq<Report>)
    ensures |WithStatus(reports, KnownStatuses)|
         == |WithStatus(reports, {Resolved})| + |WithStatus(reports, {Pending})|
          + |WithStatus(reports, {InProgress})|
  {
    WithStatusSplit(reports, {Resolved}, {Pending, InProgress});
    WithStatusSplit(reports, {Pending}, {InProgress});
    assert {Resolved} + {Pending, InProgress} == KnownStatuses;
    assert {Pending} + {InProgress} == {Pending, InProgress};
  }
}
