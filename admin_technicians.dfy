/** `GET /api/admin/technicians`: every user with the technician role, joined
    with their technician profile (or a default one) and with two counts over
    the reports assigned to them. */
module AdminTechnicians {
  import opened Wrappers
  import opened Text
  import opened Reports

  const TechnicianRole := "technician"
  const DefaultDesignation := "Technician"

  /** A user document as this endpoint reads it: its key and its role. */
  datatype UserDoc = UserDoc(email: string, role: string)

  /** A stored technician profile, linked to its user by email only. */
  datatype Profile = Profile(email: string, name: string, designation: string)

  /** One element of the reply: a stored profile document, or the plain object
      made for a technician who has no profile. Both kinds carry the two counts. */
  datatype Technician =
    | Document(profile: Profile, workload: nat, resolved: nat)
    | Plain(email: string, name: string, designation: string, workload: nat, resolved: nat)
  {
    function Email(): string
    {
      match this
      case Document(p, _, _) => p.email
      case Plain(e, _, _, _, _) => e
    }
  }

  /** `User.find({ role: 'technician' })`, in the collection's order. */
  function TechnicianUsers(users: seq<UserDoc>): (techs: seq<UserDoc>)
    ensures |techs| <= |users|
    ensures forall u :: u in techs <==> u in users && u.role == TechnicianRole
  {
    if users == [] then []
    else
      assert forall u :: u in users <==> u == users[0] || u in users[1..];
      (if users[0].role == TechnicianRole then [users[0]] else []) + TechnicianUsers(users[1..])
  }

  /** The query keeps every copy of a technician's document and drops every
      copy of the others. */
  lemma {:induction false} TechnicianUsersMultiplicity(users: seq<UserDoc>, u: UserDoc)
    ensures multiset(TechnicianUsers(users))[u] == if u.role == TechnicianRole then multiset(users)[u] else 0
  {
    if users != [] {
      assert users == [users[0]] + users[1..];
      TechnicianUsersMultiplicity(users[1..], u);
    }
  }

  /** The query keeps the collection's order: the technicians of a
      concatenation are those of each part, in turn. */
  lemma {:induction false} TechnicianUsersConcat(a: seq<UserDoc>, b: seq<UserDoc>)
    ensures TechnicianUsers(a + b) == TechnicianUsers(a) + TechnicianUsers(b)
  {
    if a != [] {
      assert (a + b)[1..] == a[1..] + b;
      TechnicianUsersConcat(a[1..], b);
    } else {
      assert a + b == b;
    }
  }

  /** Whether a report is open (pending or in progress) and assigned to `email`. */
  predicate OpenFor(r: Report, email: string)
  {
    r.assignedTechnicianId == email && r.status in {Pending, InProgress}
  }

  /** The number of open reports (pending or in progress) assigned to `email`. */
  function Workload(reports: seq<Report>, email: string): (n: nat)
    ensures n <= |AssignedTo(reports, email)|
    ensures n == 0 <==> forall r :: r in reports ==> !OpenFor(r, email)
  {
    var theirs := AssignedTo(reports, email);
    var open := WithStatus(theirs, {Pending, InProgress});
    assert forall r :: r in open <==> r in reports && OpenFor(r, email);
    assert |open| > 0 ==> open[0] in open;
    |open|
  }

  /** The number of resolved reports assigned to `email`. */
  function ResolvedCount(reports: seq<Report>, email: string): (n: nat)
    ensures n <= |AssignedTo(reports, email)|
    ensures n == 0 <==> forall r :: r in reports ==> !(r.assignedTechnicianId == email && r.status == Resolved)
  {
    var theirs := AssignedTo(reports, email);
    var done := WithStatus(theirs, {Resolved});
    assert forall r :: r in done <==> r in reports && r.assignedTechnicianId == email && r.status == Resolved;
    assert |done| > 0 ==> done[0] in done;
    |done|
  }

  /** Each further report adds one to the workload of the technician it is
      assigned to exactly when it is open, and nothing otherwise. */
  lemma WorkloadAppend(reports: seq<Report>, r: Report, email: string)
    ensures Workload(reports + [r], email) == Workload(reports, email) + (if OpenFor(r, email) then 1 else 0)
  {
    AssignedToConcat(reports, [r], email);
    var one := AssignedTo([r], email);
    assert [r][1..] == [];
    assert one == if r.assignedTechnicianId == email then [r] else [];
    WithStatusConcat(AssignedTo(reports, email), one, {Pending, InProgress});
    assert one != [] ==> one[1..] == [];
    assert |WithStatus(one, {Pending, InProgress})| == if OpenFor(r, email) then 1 else 0;
  }

  /** Each further report adds one to the resolved count of the technician it
      is assigned to exactly when it is resolved, and nothing otherwise. */
  lemma ResolvedCountAppend(reports: seq<Report>, r: Report, email: string)
    ensures ResolvedCount(reports + [r], email)
         == ResolvedCount(reports, email) + (if r.assignedTechnicianId == email && r.status == Resolved then 1 else 0)
  {
    AssignedToConcat(reports, [r], email);
    var one := AssignedTo([r], email);
    assert [r][1..] == [];
    assert one == if r.assignedTechnicianId == email then [r] else [];
    WithStatusConcat(AssignedTo(reports, email), one, {Resolved});
    assert one != [] ==> one[1..] == [];
    assert |WithStatus(one, {Resolved})| == if r.assignedTechnicianId == email && r.status == Resolved then 1 else 0;
  }

  /** When every report has a known status, a technician's workload and resolved
      count together are all the reports assigned to them. */
  lemma WorkloadAndResolved(reports: seq<Report>, email: string)
    requires forall i :: 0 <= i < |reports| ==> reports[i].status in KnownStatuses
    ensures Workload(reports, email) + ResolvedCount(reports, email) == |AssignedTo(reports, email)|
  {
    var theirs := AssignedTo(reports, email);
    assert forall i :: 0 <= i < |theirs| ==> theirs[i] in reports;
    WithStatusAll(theirs, KnownStatuses);
    WithStatusSplit(theirs, {Pending, InProgress}, {Resolved});
    assert {Pending, InProgress} + {Resolved} == KnownStatuses;
  }

  /** The profile that `technicianMap.get(email)` returns once every profile
      has been `set` in order: the last one with that email. */
  function LatestProfile(profiles: seq<Profile>, email: string): (latest: Option<Profile>)
    ensures latest.Some? ==> latest.value.email == email && latest.value in profiles
    ensures latest.None? <==> forall i :: 0 <= i < |profiles| ==> profiles[i].email != email
  {
    if profiles == [] then None
    else if profiles[|profiles| - 1].email == email then Some(profiles[|profiles| - 1])
    else LatestProfile(profiles[..|profiles| - 1], email)
  }

  /** When two profiles share an email, the later one wins the lookup. */
  lemma {:induction false} LaterProfileWins(profiles: seq<Profile>, i: nat)
    requires i < |profiles|
    requires forall j :: i < j < |profiles| ==> profiles[j].email != profiles[i].email
    ensures LatestProfile(profiles, profiles[i].email) == Some(profiles[i])
  {
    if i < |profiles| - 1 {
      LaterProfileWins(profiles[..|profiles| - 1], i);
    }
  }

  /** Fills the email-to-profile map with `forEach` and `set`. */
  method BuildProfileMap(profiles: seq<Profile>) returns (technicianMap: map<string, Profile>)
    ensures forall e :: e in technicianMap <==> LatestProfile(profiles, e).Some?
    ensures forall e :: e in technicianMap ==> LatestProfile(profiles, e) == Some(technicianMap[e])
  {
    technicianMap := map[];
    for i := 0 to |profiles|
      invariant forall e :: e in technicianMap <==> LatestProfile(profiles[..i], e).Some?
      invariant forall e :: e in technicianMap ==> LatestProfile(profiles[..i], e) == Some(technicianMap[e])
    {
      var tech := profiles[i];
      assert profiles[..i + 1][..i] == profiles[..i];
      technicianMap := technicianMap[tech.email := tech];
    }
    assert profiles[..|profiles|] == profiles;
  }

  /** The element for one technician user, before the counts are attached: the
      profile stored under their email, or a plain object whose name is the
      local part of the email. */
  function Combined(user: UserDoc, technicianMap: map<string, Profile>): (tech: Technician)
    ensures tech.Document? <==> user.email in technicianMap
    ensures tech.Document? ==> tech.profile == technicianMap[user.email]
    ensures tech.Plain? ==>
      && tech.email == user.email
      && tech.name == LocalPart(user.email) && tech.name <= user.email && '@' !in tech.name
      && tech.designation == DefaultDesignation
    ensures (user.email in technicianMap ==> technicianMap[user.email].email == user.email) ==>
      tech.Email() == user.email
  {
    if user.email in technicianMap then
      Document(technicianMap[user.email], 0, 0)
    else
      Plain(user.email, LocalPart(user.email), DefaultDesignation, 0, 0)
  }

  /** A technician element with its counts set from the reports. */
  function WithCounts(tech: Technician, reports: seq<Report>): (counted: Technician)
    ensures counted.Email() == tech.Email()
    ensures counted.workload == Workload(reports, tech.Email())
    ensures counted.resolved == ResolvedCount(reports, tech.Email())
    ensures counted.Document? <==> tech.Document?
    ensures tech.Document? ==> counted.profile == tech.profile
    ensures tech.Plain? ==> counted.name == tech.name && counted.designation == tech.designation
  {
    tech.(workload := Workload(reports, tech.Email()), resolved := ResolvedCount(reports, tech.Email()))
  }

  /** The `for` loop that writes `workload` and `resolved` on every element in
      place. It tests whether the element is a stored document, and both
      branches run the same two queries and the same two writes. */
  method AttachCounts(techs: array<Technician>, reports: seq<Report>)
    modifies techs
    ensures forall i :: 0 <= i < techs.Length ==> techs[i] == WithCounts(old(techs[i]), reports)
  {
    for i := 0 to techs.Length
      invariant forall k :: 0 <= k < i ==> techs[k] == WithCounts(old(techs[k]), reports)
      invariant forall k :: i <= k < techs.Length ==> techs[k] == old(techs[k])
    {
      var tech := techs[i];
      if tech.Document? {
        var assignedReports := WithStatus(AssignedTo(reports, tech.Email()), {Pending, InProgress});
        var resolvedReports := WithStatus(AssignedTo(reports, tech.Email()), {Resolved});
        techs[i] := Document(tech.profile, |assignedReports|, |resolvedReports|);
      } else {
        var assignedReports := WithStatus(AssignedTo(reports, tech.Email()), {Pending, InProgress});
        var resolvedReports := WithStatus(AssignedTo(reports, tech.Email()), {Resolved});
        techs[i] := Plain(tech.email, tech.name, tech.designation, |assignedReports|, |resolvedReports|);
      }
    }
  }

  /** The whole endpoint. `users`, `profiles` and `reports` are the three
      collections as their queries return them. */
  method GetTechnicians(users: seq<UserDoc>, profiles: seq<Profile>, reports: seq<Report>)
    returns (combined: seq<Technician>)
    ensures |combined| == |TechnicianUsers(users)|
    ensures forall i :: 0 <= i < |combined| ==> combined[i].Email() == TechnicianUsers(users)[i].email
    ensures forall i :: 0 <= i < |combined| ==>
      match LatestProfile(profiles, TechnicianUsers(users)[i].email)
      case Some(p) => combined[i] == Document(p, combined[i].workload, combined[i].resolved)
      case None =>
        var email := TechnicianUsers(users)[i].email;
        combined[i] == Plain(email, LocalPart(email), DefaultDesignation, combined[i].workload, combined[i].resolved)
    ensures forall i :: 0 <= i < |combined| ==>
      && combined[i].workload == Workload(reports, combined[i].Email())
      && combined[i].resolved == ResolvedCount(reports, combined[i].Email())
  {
    var technicianUsers := TechnicianUsers(users);
    var technicianMap := BuildProfileMap(profiles);
    var combinedTechnicians := seq(|technicianUsers|, i requires 0 <= i < |technicianUsers| =>
                                     Combined(technicianUsers[i], technicianMap));
    var techs := new Technician[|combinedTechnicians|](i requires 0 <= i < |combinedTechnicians| =>
                                                       combinedTechnicians[i]);
    AttachCounts(techs, reports);
    combined := techs[..];
  }
}
