# FixTrack server core in Dafny

FixTrack is a facility-maintenance report tracker. Students file reports,
technicians are assigned to them, and an administrator watches aggregate
figures. This project models the decision logic of its HTTP server
(`backend/server.js`). The three document collections (users, technician
profiles, reports) become in-memory maps and sequences, and each handler
runs atomically.

- `wrappers.dfy` (`Wrappers`): `Option`, the result of `findOne` and `Map.get`.
- `text.dfy` (`Text`): `endsWith`, and the part of an email before its first '@'.
- `bcrypt.dfy` (`Bcrypt`): the hashing library, abstract. `Hash(password, salt)` takes the random salt as a parameter. Its one stated promise is `Compare(password, Hash(password, salt))`, and the lemmas about the handlers use nothing else about it.
- `auth.dfy` (`Auth`): the user collection as a map from email to `(passwordHash, role)`.
  - `RegisterStep` and `LoginStep` give the reply and the new collection for one request.
  - The class `UserStore` holds the collection as a field. Its `Register` and `Login` methods run the handlers' steps one at a time: the checks, `findOne`, then `save`. Each method is proved to equal the matching step.
  - `WellFormed` is the collection invariant the handlers keep: every address is in the `@cmrcet.ac.in` domain, and only `ceerhod@cmrcet.ac.in` can hold the `admin` role.
- `reports.dfy` (`Reports`): report documents and the status and assignee filters, with lemmas that split counts by disjoint status sets.
- `admin_reports.dfy` (`AdminReports`): `GET /api/admin/reports` and its four counts.
- `admin_technicians.dfy` (`AdminTechnicians`): `GET /api/admin/technicians`.
  - A loop builds the email→profile map, and the later of two profiles with the same email wins.
  - Each technician user gets their profile document, or a plain default whose name is the email's local part and whose designation is "Technician".
  - A second loop writes `workload` and `resolved` in place, on an array of those elements. Both branches of its document-versus-plain test produce the same counts.

Two behaviours of the code worth noting:

- An address outside the domain registered with role `admin` gets the admin-only message, not the domain message, because the admin-role gate runs first (`RegisterRejectsForeignDomain`). Every such registration is still rejected, and the collection does not change.
- The admin bootstrap login replies with role `admin` even when a record for `ceerhod@cmrcet.ac.in` already exists with another role (it could have been registered as a student, say). That record is left as it is (`AdminLoginSucceeds`).

## Model

| member | source | states |
|---|---|---|
| `Text.EndsWithIsConcat` | backend/server.js:38 | `email.endsWith(suffix)` holds exactly when the email is some string followed by the suffix |
| `Text.LocalPart` | backend/server.js:156 | `split('@')[0]` is a prefix of the email, contains no '@', and is followed by '@' unless it is the whole email |
| `Text.LocalPartSplit` | backend/server.js:156 | for `local + "@" + rest`, where `local` has no '@', the default name is exactly `local`; an email with no '@' is its own name |
| `Bcrypt.Hash` | backend/server.js:47 | a password always matches a digest made from it, whatever salt was drawn |
| `Auth.AdminEmailInDomain` | backend/server.js:34-38 | the fixed admin address ends with the institutional domain |
| `Auth.RegisterStep` | backend/server.js:31-51 | a rejected registration leaves the collection unchanged; a successful one adds the new email only, and it was not there before; no existing record is ever changed |
| `Auth.RegisterRejectsForeignAdmin` | backend/server.js:34-36 | the admin role with any other address gets the admin-only message, and the collection is unchanged |
| `Auth.RegisterRejectsForeignDomain` | backend/server.js:34-40 | an address outside the domain is always rejected with the collection unchanged: with the domain message, or with the admin-only message when the role is admin |
| `Auth.RegisterRejectsDuplicate` | backend/server.js:42-45 | a known address is rejected with the collection unchanged; in a well-formed collection with an allowed role, the message is "User already exists" |
| `Auth.RegisterSucceeds` | backend/server.js:34-51 | success holds exactly when all three checks pass; it then adds one record `(Hash(password), role)`, the size grows by one, and the reply is 200 "Registration successful" |
| `Auth.RegisterTwice` | backend/server.js:42-51 | registering the same email again after a success gives "User already exists" and changes nothing |
| `Auth.RegisterKeepsWellFormed` | backend/server.js:34-49 | registration keeps the invariant: every address is in the domain, and only the fixed admin address holds the admin role |
| `Auth.LoginStep` | backend/server.js:61-86 | login changes no existing record; it can add only the admin record, and only on the bootstrap path when that record is missing; a successful reply's role is admin or the stored role |
| `Auth.AdminLoginSucceeds` | backend/server.js:64-78 | the admin credentials always give role admin; afterwards the admin address has a record, which is new (admin role, hash of "1234") exactly when none existed, and otherwise the collection is unchanged |
| `Auth.AdminLoginIdempotent` | backend/server.js:64-78 | a second admin login leaves the collection and the reply as the first one left them |
| `Auth.LoginReadOnly` | backend/server.js:80-86 | away from the admin credentials the collection is never modified: an unknown email gives "User not found", a failed comparison "Incorrect password", and otherwise success with the stored role |
| `Auth.RegisteredUserCanLogIn` | backend/server.js:47-86 | after a successful registration, logging in with the same password succeeds with the registered role (admin for the admin credentials) and changes nothing |
| `Auth.LoginKeepsWellFormed` | backend/server.js:64-75 | login keeps the collection invariant |
| `Auth.UserStore.FindOne` | backend/server.js:42 | `findOne({ email })` finds the stored record exactly when the email is a key |
| `Auth.UserStore.Register` | backend/server.js:29-56 | the handler's reply and new collection are those of `RegisterStep`, and the invariant is kept |
| `Auth.UserStore.Login` | backend/server.js:59-91 | the handler's reply and new collection are those of `LoginStep`, and the invariant is kept |
| `Reports.WithStatus` | backend/server.js:106-108 | a report is in the filtered list exactly when it is in the input and its status is in the set; the filter never returns more reports than it was given |
| `Reports.WithStatusMultiplicity` | backend/server.js:106-108 | the status filter keeps every copy of a report whose status is selected and drops every copy of the others, so each count counts reports, not distinct values |
| `Reports.WithStatusConcat` | backend/server.js:106-108 | the status filter keeps order: filtering a concatenation gives the filtered parts in turn |
| `Reports.AssignedTo` | backend/server.js:169-176 | a report is in the filtered list exactly when it is in the input and assigned to that email |
| `Reports.AssignedToMultiplicity` | backend/server.js:169-176 | the assignee filter keeps every copy of a report assigned to the email and drops every copy of the others |
| `Reports.AssignedToConcat` | backend/server.js:169-176 | the assignee filter keeps order: filtering a concatenation gives the filtered parts in turn |
| `Reports.WithStatusSplit` | backend/server.js:169-177 | filtering by two disjoint status sets splits the count for their union |
| `Reports.WithStatusAll` | backend/server.js:105-108 | when every status is in the set, the filter keeps every report |
| `Reports.KnownStatusCounts` | backend/server.js:106-108 | the reports with a known status number the resolved, pending and in-progress counts added together |
| `AdminReports.Stats` | backend/server.js:105-115 | `total` is the number of reports; `resolved`, `pending` and `inProgress` are each at most `total`, and so is their sum |
| `AdminReports.AdminReportsReply` | backend/server.js:119-122 | the reply carries the reports unchanged and exactly the stats of those reports, so the bounds and the partition of `Stats` hold of what is sent |
| `AdminReports.StatsPartition` | backend/server.js:105-115 | when every status is one of the three known ones, `total == resolved + pending + inProgress` |
| `AdminTechnicians.TechnicianUsers` | backend/server.js:135 | a user is in the result exactly when it is in the collection with the technician role |
| `AdminTechnicians.TechnicianUsersMultiplicity` | backend/server.js:135 | the query keeps every copy of a technician's document and drops every copy of the others |
| `AdminTechnicians.TechnicianUsersConcat` | backend/server.js:135 | the query keeps the collection's order: the technicians of a concatenation are those of each part in turn |
| `AdminTechnicians.Workload` | backend/server.js:169-172 | the workload is at most the number of reports assigned to the email, and is 0 exactly when no assigned report is pending or in progress |
| `AdminTechnicians.ResolvedCount` | backend/server.js:174-177 | the resolved count is at most the number of reports assigned to the email, and is 0 exactly when no assigned report is resolved |
| `AdminTechnicians.WorkloadAppend` | backend/server.js:169-172 | one more report raises the workload of its assignee by one exactly when it is pending or in progress, and changes nothing otherwise |
| `AdminTechnicians.ResolvedCountAppend` | backend/server.js:174-177 | one more report raises the resolved count of its assignee by one exactly when it is resolved, and changes nothing otherwise |
| `AdminTechnicians.WorkloadAndResolved` | backend/server.js:169-194 | when every status is known, a technician's workload and resolved count add up to all the reports assigned to them |
| `AdminTechnicians.LatestProfile` | backend/server.js:141-148 | the lookup finds a profile with the requested email exactly when one exists, and then the last such profile |
| `AdminTechnicians.LaterProfileWins` | backend/server.js:142-144 | of two profiles with the same email, the later one is the one the map holds |
| `AdminTechnicians.BuildProfileMap` | backend/server.js:141-144 | the map's keys are exactly the profile emails, and each maps to the last profile with that email |
| `AdminTechnicians.Combined` | backend/server.js:147-162 | a technician user gets the stored profile document exactly when the map has their email; otherwise a plain object with their email, the email's local part as name and designation "Technician"; either way the element's email is the user's when the map is keyed by profile email |
| `AdminTechnicians.WithCounts` | backend/server.js:179-194 | the element gets the workload and resolved count of its own email, and keeps its kind, email, profile, name and designation |
| `AdminTechnicians.AttachCounts` | backend/server.js:166-196 | every element, document or plain, gets its workload (pending or in-progress reports assigned to its email) and its resolved count; nothing else in it changes |
| `AdminTechnicians.GetTechnicians` | backend/server.js:129-198 | one entry per technician user, in order and with the user's email; the latest profile when one exists, otherwise a plain entry named by the email's local part with designation "Technician"; workload and resolved count from the reports |

## Left out

- Express setup, CORS, body parsing and static file middleware (backend/server.js:13-19): framework plumbing.
- The MongoDB connection and the `MONGODB_URI` and `PORT` environment variables (backend/server.js:21-26, 243-244): I/O.
- The static HTML routes and their 404 fallbacks (backend/server.js:206-240): file serving.
- The mounted student, technician and report routers (backend/server.js:94-96): their code is not part of this model.
- bcrypt internals: salting, the work factor 10 and the digest encoding. The salt is a parameter, and the digest is ideal (it records its salt and its input). The lemmas rely only on `Compare(p, Hash(p, s))`.
- The `createdAt` descending sort (backend/server.js:102): the database sorts on timestamps. The report sequence is taken in the order the query returns it.
- The 500 "Server error" paths and console logging: exceptions and I/O. This includes a request body with a missing `email`, where `endsWith` would throw.
- Mongoose schema validation. The user, technician and report model files are not part of this model, so roles and statuses are plain strings, and a `save` that the schema would refuse is not modelled.
- `AdminTechnicians.Combined`: a stored profile enters the reply with both counts at 0 before the loop overwrites them. Whether the Technician schema persists or serialises these two fields is not modelled.
- `toObject` (backend/server.js:168): only which kind an element is, document or plain, is kept. The document's extra fields (`_id` and so on) are not.
- The interleaving of awaits across concurrent requests: each handler is atomic. The separate query per technician (the N+1 pattern) is modelled as filters over one snapshot of the reports.
- The order in which `User.find` returns users: the technician endpoint takes the user documents as a sequence in the collection's order. This sequence is separate from the map used for registration and login.
