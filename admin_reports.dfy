/** `GET /api/admin/reports`: every report, with four counts over their statuses. */
module AdminReports {
  import opened Reports

  datatype ReportStats = ReportStats(total: nat, resolved: nat, pending: nat, inProgress: nat)

  datatype ReportsReply = ReportsReply(reports: seq<Report>, stats: ReportStats)

  /** The counts the endpoint computes with `filter(...).length`. Statuses
      outside the three known ones are counted only in `total`. */
  function Stats(reports: seq<Report>): (stats: ReportStats)
    ensures stats.total == |reports|
    ensures stats.resolved <= stats.total && stats.pending <= stats.total && stats.inProgress <= stats.total
    ensures stats.resolved + stats.pending + stats.inProgress <= stats.total
  {
    KnownStatusCounts(reports);
    ReportStats(|reports|, |WithStatus(reports, {Resolved})|, |WithStatus(reports, {Pending})|,
                |WithStatus(reports, {InProgress})|)
  }

  /** The reply: the reports in the order the collection returned them, and their stats. */
  function AdminReportsReply(reports: seq<Report>): (reply: ReportsReply)
    ensures reply.reports == reports
    ensures reply.stats == Stats(reply.reports)
    ensures reply.stats.total == |reports|
  {
    ReportsReply(reports, Stats(reports))
  }

  /** When every report has one of the three known statuses, the three counts
      partition the total. */
  lemma StatsPartition(reports: seq<Report>)
    requires forall i :: 0 <= i < |reports| ==> reports[i].status in KnownStatuses
    ensures Stats(reports).total == Stats(reports).resolved + Stats(reports).pending + Stats(reports).inProgress
  {
    WithStatusAll(reports, KnownStatuses);
    KnownStatusCounts(reports);
  }
}
