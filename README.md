# BIT Mesra complaint management — a verified model of the server core

This project models the Express/Mongoose server of the BIT Mesra complaint
management system:

- **Complaints.** Students file complaints about a hostel, a college facility
  or the campus network. A pre-save hook gives each complaint a
  `CMP-<time>-<hex>` token. The controller auto-assigns it to an authority.
  Authorities move it through Pending / In Progress / Resolved / Rejected.
- **Accounts.** Students, authorities and admins sign up, verify their e-mail
  with a six-digit one-time code, log in, and reset their passwords.
- **Middleware.** A request passes the bearer-token middleware before it
  reaches a handler.
- **Admin.** Admins list and filter complaints, read feedback, compute
  statistics, and update or delete users. Deleting a student also deletes
  that student's complaints and feedback.
- **Feedback and notices.** Students leave feedback. Anyone can post, list
  (per hostel or "all") and delete notices, optionally with a PDF.

How the model is built:

- **One module per source file.** Each Mongoose model, controller, router
  and the middleware gets its own module.
- **Shared modules.**
  - `Common`: options, responses, ids, time, bytes and the bcrypt stand-in.
  - `Text`: character classes, ASCII case mapping, trim, split, radix and
    hex codecs, and lexicographic order.
  - `Sorting`: an insertion sort proved to yield a sorted permutation.
  - `Query`: `find`, `findOne`, `deleteMany` and `countDocuments` over
    sequences.
  - `Store`: a `Db` class whose `seq` fields are the collections, plus an
    outbox of sent mails and an id counter.
- **Documents with save hooks.** `ComplaintDoc`, `StudentDoc` and
  `AuthorityDoc` are classes wrapping the record. Their methods update it in
  place.
- **Handlers.** A handler that writes to the database is a method on `Db`.
  A handler that only reads is a function over the collections.
- **Saving a document** runs these steps in order: the schema validators,
  the pre-save hook, the unique-index check, then the write.
  - A validator failure answers as the handler's `catch` block does.
  - A unique-index clash answers the same way.
- **Queries with `findByIdAndUpdate`** run neither validators nor hooks,
  exactly as Mongoose's default does.
- **Things passed in as parameters.** The current time, `Math.random`,
  `crypto.randomBytes`, `jwt.sign` and `jwt.verify` are all parameters.
- **bcrypt** is the injective encoding `Hash(p) = header + p`. A password
  matches a stored hash exactly when the stored value is `Hash(p)`. Real
  bcrypt output has a fixed length and ignores bytes past the 72nd; see
  "Left out".

## Model

| member | source | states |
|---|---|---|
| Common.Hash | server/models/Student.js:96-100 | the stand-in hash keeps the whole password after the 29-character header, so it is at least as long as the header and, like a real 60-character bcrypt hash, always passes the 8-character `minlength` |
| Common.HashInjective | server/models/Student.js:140-142 | two passwords with the same hash are equal, so a stored hash identifies its password |
| Common.DoubleHashRejectsPassword | server/models/Authority.js:82-92 | a password never matches the hash of its own hash |
| ComplaintModel.HostelFieldsRequiredOnlyForHostel | server/models/Complaint.js:19-32 | a valid non-Hostel complaint stays valid without hostel and room, which are required only for Hostel complaints |
| ComplaintModel.MintToken | server/models/Complaint.js:81-84 | a token starts with `CMP-`, has a `-` before its six hex digits, and is at least 12 characters long |
| ComplaintModel.TokenRoundTrip | server/models/Complaint.js:82-83 | parsing a minted token gives back its time and its three random bytes |
| ComplaintModel.TokenInjective | server/models/Complaint.js:82-83 | two tokens are equal only when minted at the same millisecond from the same bytes |
| ComplaintModel.PreSaved | server/models/Complaint.js:80-94 | a token is minted only when none is set; hostel and room are cleared exactly when type or subType is Network; updatedAt becomes now; nothing else changes |
| ComplaintModel.TokenStable | server/models/Complaint.js:81-84 | a second save keeps the token the first save minted |
| ComplaintModel.PreSaveKeepsConformance | server/models/Complaint.js:86-90 | the hook breaks validity only for a Hostel complaint with subType Network, whose required hostel and room it removes |
| ComplaintModel.ComplaintDoc.constructor | server/models/Complaint.js:4-77 | a document wraps the given record |
| ComplaintModel.ComplaintDoc.PreSave | server/models/Complaint.js:80-94 | the hook updates the document in place to `PreSaved` of its old record |
| ComplaintModel.ByNewest | server/controllers/complaintController.js:91-92 | sorting by createdAt descending yields a sorted permutation |
| ComplaintModel.ByStatusThenNewest | server/controllers/authorityController.js:173-175 | sorting by status ascending, then createdAt descending, yields a sorted permutation |
| ComplaintModel.FindNewest | server/controllers/complaintController.js:91-92 | find then sort newest first: exactly the matching complaints, each as often as stored, newest first |
| ComplaintModel.FindByStatus | server/controllers/authorityController.js:173-175 | find then sort by status and newest: exactly the matching complaints, each as often as stored, in that order |
| StudentModel.EmailKey | server/models/Student.js:19-29 | the stored e-mail has no white space at either end, no ASCII capital, and is never longer than the input |
| StudentModel.RollNoKey | server/models/Student.js:12-18 | the stored roll number has no white space at either end, no ASCII small letter, and is never longer than the input |
| StudentModel.EmailKeyIsTrimmedLower | server/models/Student.js:19-29 | the stored e-mail is the lower-cased infix of the input that only white space surrounds |
| StudentModel.RollNoKeyIsTrimmedUpper | server/models/Student.js:12-18 | the stored roll number is the upper-cased infix of the input that only white space surrounds |
| StudentModel.EmailKeyIdempotent | server/models/Student.js:19-29 | normalising a stored e-mail again changes nothing, so a query finds it |
| StudentModel.RollNoKeyIdempotent | server/models/Student.js:12-18 | normalising a stored roll number again changes nothing |
| StudentModel.EmailMatchesPattern | server/models/Student.js:26 | the e-mail check holds exactly when the address is a non-empty run of word characters, `-` and `.` followed by `@bitmesra.ac.in` |
| StudentModel.MobileMatchesPattern | server/models/Student.js:30-37 | the mobile check holds exactly when the number splits into an optional `+91` with an optional separator, an optional `0`, an optional `91`, and ten digits starting with 7, 8 or 9 |
| StudentModel.NewStudent | server/models/Student.js:6-84 | a new student has normalised e-mail, roll number and name, is unverified, and has no tokens, hostel or room |
| StudentModel.AuthClaims | server/models/Student.js:103-109 | the login token carries the student's id and role `student` |
| StudentModel.IdClaims | server/models/Student.js:112-123 | verification and reset tokens carry only the id, with no role |
| StudentModel.HashedOnSave | server/models/Student.js:96-100 | the hook hashes the password only when it was modified and changes no other field |
| StudentModel.StudentDoc.constructor | server/models/Student.js:5-93 | a document wraps the given record and its modified-password flag |
| StudentModel.StudentDoc.PreSave | server/models/Student.js:96-100 | the hook updates the document in place to `HashedOnSave` of its old record |
| StudentModel.StudentDoc.GenerateVerificationToken | server/models/Student.js:112-123 | returns the id-only signed token and stores it with a 1-hour expiry; nothing else changes |
| StudentModel.StudentDoc.GeneratePasswordResetToken | server/models/Student.js:126-137 | returns the id-only signed token and stores it with a 30-minute expiry; nothing else changes |
| StudentModel.Save | server/models/Student.js:96-100 | a saved student is the hooked record |
| AuthorityModel.DefaultDepartment | server/models/Authority.js:36-42 | department defaults to Network exactly when the designation is Network Department |
| AuthorityModel.HostelNoByDesignation | server/models/Authority.js:43-56 | a valid Hostel Clerk or Warden has a hostel in 1..13; a valid Network Department authority has none |
| AuthorityModel.NewAuthority | server/models/Authority.js:6-70 | a new authority has normalised e-mail and name, the defaulted department, and is unverified with no tokens |
| AuthorityModel.PreSaved | server/models/Authority.js:82-92 | without a modified password nothing changes; with one the password is hashed and, for Network Department, the hostel is cleared |
| AuthorityModel.PreSaveClearingRedundant | server/models/Authority.js:82-92 | on a valid record the clearing never changes anything, because validation already forbids a Network Department hostel |
| AuthorityModel.AuthClaims | server/models/Authority.js:95-108 | the token carries id, role `authority`, designation and department, and the hostel only outside Network Department |
| AuthorityModel.AuthorityDoc.constructor | server/models/Authority.js:5-79 | a document wraps the given record and its modified-password flag |
| AuthorityModel.AuthorityDoc.PreSave | server/models/Authority.js:82-92 | the hook updates the document in place to `PreSaved` of its old record |
| AuthorityModel.Save | server/models/Authority.js:82-92 | a saved authority is the hooked record |
| FeedbackModel.ByNewest | server/controllers/feedbackController.js:38-41 | sorting by createdAt descending yields a sorted permutation |
| FeedbackModel.FindNewest | server/controllers/feedbackController.js:62-64 | find then sort newest first: exactly the matching feedback, each as often as stored |
| Store.AdminClaims | server/models/Admin.js:39-45 | the admin token carries the id and role `admin` |
| Store.AdminHashedOnSave | server/models/Admin.js:32-36 | the admin hook hashes only a modified password and changes nothing else |
| Store.IndexOfId | server/middleware/auth.js:38-45 | `findById` returns the first record with that id, and none exactly when no record has it |
| AuthMiddleware.ExtractToken | server/middleware/auth.js:12-16 | with a `Bearer` header the token is the second space-separated part, present only if one exists; otherwise it is the cookie when that is truthy |
| AuthMiddleware.Decoded | server/middleware/auth.js:18-27 | claims are present only for a truthy token that verifies |
| AuthMiddleware.LoadUser | server/middleware/auth.js:38-45 | the user is found in the collection named by the role with the claimed id, and is absent exactly when that collection has no such id |
| AuthMiddleware.Authenticate | server/middleware/auth.js:12-62 | the result is 401 exactly when no verified token exists, 403 exactly when the role check fails, 404 exactly when the lookup fails, and otherwise admits exactly the account the lookup loaded for the token's id |
| AuthMiddleware.KindOf | server/middleware/auth.js:38-45 | an admitted principal is a student, an authority or an admin |
| AuthMiddleware.BearerShadowsCookie | server/middleware/auth.js:12-16 | with a `Bearer` header the cookie is never consulted, even when the header has no token part |
| AuthMiddleware.BearerRoundTrip | server/middleware/auth.js:12-13 | `Bearer <t>` with a space-free t yields t |
| AuthMiddleware.SingleRoleAdmitsOnlyThatRole | server/middleware/auth.js:30-45 | a guard naming one role admits only principals of that role |
| AuthMiddleware.PartialRoleReachesLookup | server/middleware/auth.js:30-52 | with a string guard the role test is a substring test, so role `stud` passes `student` and then fails the lookup with 404 |
| AuthMiddleware.MissingRoleForbidden | server/middleware/auth.js:30-35 | a token without a role is refused with 403 by every single-role guard |
| AuthMiddleware.StudentLoginTokenAdmits | server/middleware/auth.js:12-55 | the token a student's login issues, sent as a bearer token, admits exactly that student through the student guard |
| ComplaintController.Assignee | server/controllers/complaintController.js:31-55 | a network-ish complaint goes to the first Network-department authority; otherwise a Hostel complaint with a hostel goes to the first Hostel Clerk of that hostel; otherwise nobody |
| ComplaintController.AssigneeIsClerkOfHostel | server/controllers/complaintController.js:44-48 | a non-network assignee is always a Hostel Clerk of the complaint's hostel, never a Warden |
| ComplaintController.Draft | server/controllers/complaintController.js:58-66 | the new complaint carries the caller, the request fields and the assignee, with status Pending and no token yet; a Network-type request drops hostel and room |
| ComplaintController.Filed | server/controllers/complaintController.js:58-68 | the stored complaint has the minted token, the caller, status Pending and the computed assignee |
| ComplaintController.CreateComplaint | server/controllers/complaintController.js:7-83 | 400 exactly for a network-ish request with a truthy hostel or room; 201 with the token, after appending exactly the filed complaint, exactly when it validates and its token is new; otherwise 500 and nothing stored |
| ComplaintController.UnassignedStillFiled | server/controllers/complaintController.js:34-41 | with no Network-department authority a network complaint is still filed, unassigned |
| ComplaintController.FiledNetworkComplaintHasNoPlace | server/controllers/complaintController.js:21-29 | a filed network-ish complaint has no hostel and no truthy room |
| ComplaintController.HostelNetworkNeverFiled | server/models/Complaint.js:19-32 | a Hostel complaint with subType Network always fails validation, because hostel and room are required |
| ComplaintController.StudentComplaints | server/controllers/complaintController.js:89-108 | exactly the caller's complaints, newest first |
| ComplaintController.AuthorityComplaints | server/controllers/complaintController.js:148-194 | exactly the complaints assigned to the caller within the caller's scope, newest first |
| ComplaintController.AuthorityComplaintsAreAssigned | server/controllers/complaintController.js:150-173 | every complaint in that listing is assigned to the caller |
| ComplaintController.OtherAuthoritySeesAssignments | server/controllers/complaintController.js:168-173 | for an authority outside Network and hostel staff, a complaint is listed exactly when it is assigned to them |
| ComplaintController.NetworkComplaints | server/controllers/complaintController.js:199-226 | exactly the network-ish complaints, by status then newest |
| ComplaintController.HostelComplaintsByHostelNo | server/controllers/complaintController.js:340-354 | exactly the Hostel complaints of that hostel, newest first |
| ComplaintController.AllComplaints | server/controllers/complaintController.js:304-339 | exactly the complaints passing the hostel and `type=Network` filters, newest first |
| ComplaintController.AllComplaintsUnfiltered | server/controllers/complaintController.js:308-318 | without a hostel, a type other than Network filters nothing |
| ComplaintController.AdminNetworkListingOmitsInternet | server/controllers/complaintController.js:312-316 | an Internet complaint of another type is network-ish yet missing from the `type=Network` listing |
| ComplaintController.ByToken | server/controllers/complaintController.js:113 | `findOne` by token returns the first complaint with that token, and none exactly when none has it |
| ComplaintController.ComplaintByTokenAsWritten | server/controllers/complaintController.js:111-145 | as written: 404 exactly for an unknown token, otherwise 200 with the complaint, whoever asks |
| ComplaintController.ComplaintByToken | server/controllers/complaintController.js:111-145 | 404 for an unknown token; 403 exactly when a student asks for someone else's complaint; a student only ever receives their own |
| ComplaintController.StudentReadsOthersComplaint | server/controllers/complaintController.js:125-130 | as written, a student reads another student's complaint, which the intended check refuses with 403 |
| ComplaintController.LookupsAgreeForStaff | server/controllers/complaintController.js:125-130 | for authorities and admins both lookups agree |
| ComplaintController.ByTokenFindsStored | server/controllers/complaintController.js:113 | with distinct tokens, a stored complaint's token finds exactly that complaint |
| ComplaintController.StatusUpdated | server/controllers/complaintController.js:267-276 | the update sets status, remarks, assignedTo := caller and updatedAt, and nothing else |
| ComplaintController.StatusUpdateConformance | server/controllers/complaintController.js:267-276 | a valid complaint stays valid exactly when the status is one of the four and the remarks fit in 200 characters |
| ComplaintController.UpdaterListsComplaint | server/controllers/complaintController.js:267-276 | after an update, the updating authority's own listing shows the complaint |
| ComplaintController.UpdateComplaintStatus | server/controllers/complaintController.js:258-301 | 404 exactly for an unknown id; otherwise 200 with the updated complaint, stored in place |
| ComplaintRoutes.GuardAdmits | server/routes/complaint.js:7-47 | filing and own-listing admit only students; the authority view, status update and root listing admit only authorities; `/admin/all` admits only admins |
| ComplaintRoutes.TokenRouteAdmitsEveryRole | server/routes/complaint.js:38 | the token lookup's guard admits any verified, existing user |
| ComplaintRoutes.AuthorityPathIsNotAToken | server/routes/complaint.js:11 | `GET /authority`, in any letter case, reaches the authority view, never the token lookup |
| ComplaintRoutes.OtherSegmentIsAToken | server/routes/complaint.js:38 | any other non-empty segment, other than `student` and `authority` in any letter case, reaches the token lookup |
| ComplaintRoutes.MintedTokenReachesLookup | server/routes/complaint.js:38 | every minted token reaches the token lookup |
| ComplaintRoutes.FilingRoute | server/routes/complaint.js:7 | `POST /` files a complaint |
| ComplaintRoutes.AdminRoute | server/routes/complaint.js:44 | `GET /admin/all` reaches the admin listing |
| ComplaintRoutes.UpdateRoute | server/routes/complaint.js:41 | `PUT /:id` reaches the status update |
| ComplaintRoutes.RootListingRoute | server/routes/complaint.js:47 | `GET /` reaches the authority listing |
| ComplaintRoutes.BranchOf | server/routes/complaint.js:13-30 | the Network department is tested before the designation; hostel staff come next; everyone else falls through |
| ComplaintRoutes.AuthorityListing | server/routes/complaint.js:11-35 | Network department: all network-ish complaints; hostel staff: all Hostel complaints of their hostel; others: those assigned to them |
| ComplaintRoutes.DepartmentDecidesFirst | server/routes/complaint.js:13-18 | a Network-department Warden gets network complaints, not the hostel listing |
| ComplaintRoutes.ViewWiderThanAssignedList | server/routes/complaint.js:13-24 | Network and hostel staff see complaints not assigned to them, which the controller's own scoping would hide |
| AuthorityController.Draft | server/controllers/authorityController.js:37-45 | department is Network exactly for Network Department; the hostel is kept only for Hostel Clerk and Warden |
| AuthorityController.RegisteredAsWritten | server/controllers/authorityController.js:47-51 | as written, the stored password is the hash of the hash, since both the controller and the save hook hash it |
| AuthorityController.AsWrittenPasswordCheckSeesHash | server/controllers/authorityController.js:49 | the length validator sees the hash, not the plain password |
| AuthorityController.RegisteredRecord | server/controllers/authorityController.js:37-51 | the intended record stores the password hashed once and otherwise equals the draft |
| AuthorityController.ByEmail | server/controllers/authorityController.js:28 | `findOne` by e-mail returns the first authority with the normalised address, and none exactly when none has it |
| AuthorityController.Register | server/controllers/authorityController.js:18-88 | 400 exactly for a taken e-mail; 201, after appending the record and mailing the verification link, exactly when the draft validates; no other collection changes |
| AuthorityController.LoginClaimsAreAuthClaims | server/controllers/authorityController.js:119-129 | the login token's claims equal the model's generateAuthToken claims |
| AuthorityController.Login | server/controllers/authorityController.js:91-152 | 200 with the token, designation and department exactly when the e-mail exists and the password matches; otherwise 401 Invalid credentials |
| AuthorityController.AsWrittenRegistrationLocksOut | server/controllers/authorityController.js:47-51 | as written, a freshly registered authority can never log in with its password |
| AuthorityController.RegisteredRecordLogsIn | server/controllers/authorityController.js:101-144 | with the intended record, the registered password logs in |
| AuthorityController.AssignedComplaints | server/controllers/authorityController.js:155-189 | Network department: subType Network or Internet; hostel staff: Hostel complaints of their hostel; others: every complaint; by status then newest |
| AuthorityController.OtherSeesEverything | server/controllers/authorityController.js:157-171 | an authority outside Network and hostel staff gets every complaint |
| AuthorityController.NetworkComplaints | server/controllers/authorityController.js:192-212 | exactly the complaints with subType Network or Internet, by status then newest, with no assignment filter |
| AuthorityController.NetworkListingsDiffer | server/controllers/authorityController.js:194-196 | a Network-type complaint with another subType appears in the complaint controller's network listing but not in this one |
| AuthorityController.HostelComplaints | server/controllers/authorityController.js:214-236 | exactly the Hostel complaints of that hostel, by status then newest |
| AuthorityController.ResolutionMail | server/controllers/authorityController.js:268-281 | the mail goes to the student with the complaint's token, and includes remarks exactly when they are non-empty |
| AuthorityController.UpdateComplaintStatus | server/controllers/authorityController.js:239-295 | 404 exactly for an unknown id; otherwise the complaint is updated in place, and a resolution mail is sent exactly when the status is Resolved |
| AuthorityController.ProfileUpdated | server/controllers/authorityController.js:324-328 | only name and mobile change |
| AuthorityController.ProfileUpdateConformance | server/controllers/authorityController.js:321-328 | a valid authority stays valid exactly when the new name and mobile pass their validators |
| AuthorityController.UpdateProfile | server/controllers/authorityController.js:315-341 | the caller's record gets the new name and mobile; a missing record gives 200 with no data |
| AuthorityRoutes.Guard | server/routes/authority.js:8-34 | only register and login are unguarded |
| AuthorityRoutes.GuardAdmitsOnlyAuthorities | server/routes/authority.js:12-34 | every guarded route admits only authorities |
| AuthorityRoutes.RegisterRoute | server/routes/authority.js:8 | `POST /register` reaches register |
| AuthorityRoutes.LoginRoute | server/routes/authority.js:9 | `POST /login` reaches login |
| AuthorityRoutes.ComplaintsRoute | server/routes/authority.js:12-13 | `GET /complaints` reaches the dispatching listing |
| AuthorityRoutes.UpdateStatusRoute | server/routes/authority.js:28-29 | `PUT /complaints/:id` reaches the status update |
| AuthorityRoutes.ProfileRoutes | server/routes/authority.js:32-34 | `GET` and `PUT /profile` reach the profile handlers |
| AuthorityRoutes.UpdateNeedsId | server/routes/authority.js:28-34 | a one-segment PUT reaches a handler only for `profile` |
| AuthorityRoutes.ComplaintsListing | server/routes/authority.js:12-26 | Network department: network listing; hostel staff: their own hostel's listing; others: the assigned listing |
| AuthorityRoutes.ComplaintsListingIsAssigned | server/routes/authority.js:12-26 | the dispatch computes the same listing as `getAssignedComplaints` |
| AuthorityRoutes.RoutersDisagreeForOthers | server/routes/authority.js:22 | for other authorities this router lists unassigned complaints, which the complaint router's listing does not |
| AuthController.OtpNumber | server/controllers/authController.js:20-22 | the code is in 100000..999999 |
| AuthController.EveryOtpReachable | server/controllers/authController.js:20-22 | every code in range comes from some random value in [0, 1) |
| AuthController.SixDigits | server/controllers/authController.js:20-22 | every six-digit number prints as six characters |
| AuthController.GenerateOtp | server/controllers/authController.js:20-22 | the code is six decimal digits, not starting with 0, whose value is the drawn number |
| AuthController.StudentDraft | server/controllers/authController.js:64-77 | the draft holds the normalised e-mail and roll number, the plain password, is unverified, and carries the code expiring in 600000 ms |
| AuthController.SignedUpStudent | server/controllers/authController.js:64-79 | the stored student's password matches the chosen one, and the student is unverified with the code and expiry |
| AuthController.StudentSignup | server/controllers/authController.js:45-98 | 400 exactly when the e-mail or roll number is taken; 201, after appending the student and mailing the code, exactly when the draft validates; otherwise nothing changes |
| AuthController.StoreStudent | server/controllers/authController.js:79-82 | the student is appended and the code mail is sent |
| AuthController.NoDuplicateNoClash | server/controllers/authController.js:55-61 | if the duplicate query finds nobody, the unique indexes cannot clash |
| AuthController.VerifiedStudent | server/controllers/authController.js:118-121 | verification sets isVerified, clears the code and its expiry, and changes nothing else |
| AuthController.VerifyStudentEmail | server/controllers/authController.js:101-142 | 400 when no student has the e-mail with that code unexpired; 500, with nothing stored, when the verified record breaks a schema validator; otherwise that student is verified in place and a login token is returned |
| AuthController.StudentOtpSingleUse | server/controllers/authController.js:105-121 | after verification the same code never matches again |
| AuthController.StudentLogin | server/controllers/authController.js:145-201 | 200 exactly for a known, verified student with the right password; an unverified student gets the verify-first 401 before the password is checked |
| AuthController.StudentLifecycle | server/controllers/authController.js:45-201 | after signup, login is refused until verification; the code verifies within 10 minutes; after that the chosen password logs in |
| AuthController.AppendedFoundByEmail | server/controllers/authController.js:105-109 | a newly appended student with a fresh e-mail is the one the code lookup finds |
| AuthController.AuthorityDraft | server/controllers/authController.js:222-235 | the draft keeps the given hostel, defaults the department, and carries the code expiring in 600000 ms |
| AuthController.SignedUpAuthority | server/controllers/authController.js:222-237 | the stored authority's password matches the chosen one, and the authority is unverified |
| AuthController.AuthoritySignup | server/controllers/authController.js:204-256 | 400 exactly for a taken e-mail; 201, after appending and mailing the code, exactly when the draft validates |
| AuthController.VerifiedAuthority | server/controllers/authController.js:276-279 | verification sets isVerified, clears the code and its expiry, and changes nothing else |
| AuthController.VerifyAuthorityEmail | server/controllers/authController.js:259-301 | the same over authorities: 400 without an unexpired code, 500 when the verified record breaks a validator, otherwise verified in place |
| AuthController.AuthorityOtpSingleUse | server/controllers/authController.js:263-279 | after verification the same code never matches again |
| AuthController.AuthorityLogin | server/controllers/authController.js:304-351 | 200 exactly for a known e-mail with the right password; otherwise 401 Invalid credentials |
| AuthController.AuthorityLoginsAgree | server/controllers/authController.js:309-329 | this login and the authority router's login succeed together and issue the same token |
| AuthController.UnverifiedAuthorityLogsIn | server/controllers/authController.js:309-324 | an authority logs in straight after signup, still unverified |
| AuthController.AdminLogin | server/controllers/authController.js:355-397 | 200 exactly for a known admin e-mail with the right password; otherwise 401 Invalid credentials |
| AuthController.AccountOf | server/controllers/authController.js:406-416 | exactly `student`, `authority` and `admin` name a collection |
| AuthController.StudentResetOpened | server/controllers/authController.js:427-430 | the reset code and its 10-minute expiry are set, and nothing else changes |
| AuthController.AuthorityResetOpened | server/controllers/authController.js:427-430 | the same for an authority |
| AuthController.AdminResetOpened | server/controllers/authController.js:427-430 | the same for an admin |
| AuthController.ForgotStudent | server/controllers/authController.js:406-449 | 404 for an unknown student e-mail; 500, with nothing stored and no mail, when the record with its reset code breaks a validator; otherwise that student's reset is opened in place and the code is mailed |
| AuthController.ForgotAuthority | server/controllers/authController.js:408-449 | the same over authorities |
| AuthController.ForgotAdmin | server/controllers/authController.js:410-449 | the same over admins |
| AuthController.ForgotPassword | server/controllers/authController.js:401-449 | 400 exactly for an unknown role; 404 exactly for an unknown e-mail in that role's collection; otherwise success exactly when the record with its reset code passes validation, and then the reset is opened and the code is mailed; a failure changes nothing; other collections never change |
| AuthController.StudentAfterReset | server/controllers/authController.js:489-493 | the new password matches, the reset code and expiry are cleared, and nothing else changes |
| AuthController.AuthorityAfterReset | server/controllers/authController.js:489-493 | the same for an authority; the save hook also clears a Network Department hostel |
| AuthController.AdminAfterReset | server/controllers/authController.js:489-493 | the same for an admin |
| AuthController.ResetStudent | server/controllers/authController.js:457-508 | 400 when no unexpired code matches; 500, with nothing stored, when the record with the new password breaks a validator (the new password shorter than 8 characters, or any loaded path); otherwise the password is replaced in place |
| AuthController.ResetAuthority | server/controllers/authController.js:463-493 | the same over authorities |
| AuthController.ResetAdmin | server/controllers/authController.js:469-493 | the same over admins |
| AuthController.ResetPassword | server/controllers/authController.js:452-508 | 400 for an unknown role or a code that does not match unexpired; success exactly when the code matches and the record with the new password passes validation; only that record changes |
| AuthController.ResaveRevalidatesStored | server/controllers/authController.js:101-508 | the fields verification and reset set carry no validator, so these saves fail exactly when the stored record already broke one, or the new password is shorter than 8 characters |
| AuthController.ForgotThenReset | server/controllers/authController.js:401-493 | a reset code just opened matches within its 10 minutes |
| AuthController.ResetThenLogin | server/controllers/authController.js:452-493 | after a reset, the new password, and only it, logs in, and the code never matches again |
| AuthController.ReloadAs | server/controllers/authController.js:514-530 | an unknown role gives 401 Invalid role; a known one gives the reloaded user with the same id, or 401 |
| AuthController.CheckAuthAsWritten | server/controllers/authController.js:509-536 | as written, the role is read from the stored document, which has none, so every call answers 401 Invalid role |
| AuthController.CheckAuthAsWrittenRefusesAdmitted | server/controllers/authController.js:512-523 | as written, a user the middleware admits is always refused |
| AuthController.CheckAuth | server/controllers/authController.js:509-536 | reading the role from the principal's kind, the reply is the same user (same id and kind), or 401 |
| AuthController.CheckAuthReturnsAdmitted | server/controllers/authController.js:509-530 | the corrected check returns exactly the user the middleware admitted |
| AdminController.Login | server/controllers/adminController.js:21-74 | 200 with a token and role `admin` exactly for a known e-mail with the right password; otherwise 401 with one message |
| AdminController.LoginsAgree | server/controllers/adminController.js:31-53 | this login and the auth controller's admin login succeed together and fail with the same message |
| AdminController.AllComplaints | server/controllers/adminController.js:77-103 | exactly the complaints matching each supplied type, hostel and status, newest first |
| AdminController.AllComplaintsUnfiltered | server/controllers/adminController.js:79-84 | with no filter, every complaint is listed |
| AdminController.ListingsDiffer | server/controllers/adminController.js:79-84 | a status filter narrows this listing but not the complaint controller's; a hostel filter here does not force type Hostel |
| AdminController.AllFeedback | server/controllers/adminController.js:106-129 | every feedback record, newest first, with the count |
| AdminController.FeedbackReportsAgree | server/controllers/adminController.js:108-111 | the admin report lists the same feedback as the feedback controller |
| AdminController.SystemStats | server/controllers/adminController.js:132-168 | the totals are the collection sizes; pending and resolved are the counts with those statuses |
| AdminController.StatsAddUp | server/controllers/adminController.js:141-148 | pending plus resolved plus the remaining complaints make the total |
| AdminController.UpdateUser | server/controllers/adminController.js:195-224 | the student with the id is updated first, then the authority; 404 if neither; 500 when the update would change the id or clash on a unique field |
| AdminController.UpdatedPasswordLocksOut | server/controllers/adminController.js:201-211 | a password written by this update is stored unhashed, so it no longer logs in |
| AdminController.DeleteUser | server/controllers/adminController.js:227-257 | the student with the id is deleted, else the authority, else 404; on success every complaint and feedback of that student is deleted |
| AdminController.CascadeRemovesExactlyOwn | server/controllers/adminController.js:243-244 | the cascade removes exactly the complaints whose student is the id, and nothing else |
| AdminController.AssignmentsOutliveAuthority | server/controllers/adminController.js:243 | complaints assigned to a deleted authority are kept |
| AdminController.StudentDeleteRemovesOne | server/controllers/adminController.js:232-235 | with distinct ids, deleting a student removes exactly that one record |
| FeedbackController.Draft | server/controllers/feedbackController.js:10-15 | the record carries the caller as student and the request's complaint, rating and comments |
| FeedbackController.CreateFeedback | server/controllers/feedbackController.js:6-33 | 201 exactly when the rating is present and in 1..5 and the comments are at most 500 characters, whatever complaint is named; the record is then appended and listed for its author and the admin; otherwise 500 and nothing stored |
| FeedbackController.ComplaintNeverChecked | server/controllers/feedbackController.js:8-17 | acceptance never depends on the complaint reference, only on the rating and comments |
| FeedbackController.AllFeedback | server/controllers/feedbackController.js:36-57 | every record, newest first |
| FeedbackController.StudentFeedback | server/controllers/feedbackController.js:60-80 | exactly the caller's records, newest first |
| FeedbackController.SubmissionListed | server/controllers/feedbackController.js:10-64 | a submitted record appears in the full listing and in its author's listing, and in no other student's |
| FeedbackController.StudentListingsDisjoint | server/controllers/feedbackController.js:62-64 | a record in one student's listing is in no other student's, and it is in the full listing |
| Notifications.ExtName | server/routes/notifications.js:11 | the extension is empty or a dot followed by no further dot or slash |
| Notifications.ExtNameOfStemAndExt | server/routes/notifications.js:11 | `stem.ext` has extension `.ext` when ext has no dot or slash and stem is non-empty, slash-free and does not start with a dot |
| Notifications.NoExtName | server/routes/notifications.js:11 | a name without a dot, or a dotfile, has no extension |
| Notifications.StoredFilenameSplits | server/routes/notifications.js:11 | the stored name reads back as the upload time followed by the original extension |
| Notifications.PdfUrl | server/routes/notifications.js:18 | a URL exists exactly when a file is attached |
| Notifications.PdfUrlRoundTrip | server/routes/notifications.js:11-18 | the URL is `/uploads/` followed by the upload time and the original extension |
| Notifications.Notice | server/routes/notifications.js:17-20 | the notice holds the title, message and hostel as given, and a URL exactly when a file is attached |
| Notifications.Create | server/routes/notifications.js:16-23 | the notice is appended and the reply is 201 |
| Notifications.ListFor | server/routes/notifications.js:26-32 | exactly the notices for that hostel or for "all", newest first |
| Notifications.ListingReach | server/routes/notifications.js:28-30 | an "all" notice reaches every hostel; one without a hostel reaches none; one for hostel h reaches no other hostel |
| Notifications.CreatedThenListed | server/routes/notifications.js:16-32 | a new notice is listed for h exactly when it was posted for h or for "all" |
| Notifications.DeleteNotice | server/routes/notifications.js:34-41 | every notice with that id is removed and the reply is always 200 |
| Notifications.DeleteUnknownKeepsAll | server/routes/notifications.js:36-37 | deleting an unknown id changes nothing, yet still reports success |
| Notifications.DeleteRemovesOne | server/routes/notifications.js:36 | with distinct ids, delete removes exactly that one notice |
| Notifications.Guard | server/routes/notifications.js:16-34 | no route carries a guard |
| Notifications.Unguarded | server/routes/notifications.js:16-34 | create, list and delete are reachable and unguarded |

## Left out

- The average rating in the admin feedback report (server/controllers/adminController.js:114) is floating-point arithmetic with `toFixed`; only the count and the list are modelled.
- `Promise.all` in the statistics handler is concurrency; the counts are modelled as one sequential computation.
- Multer's disk storage and the static serving of `/uploads` are file I/O. Only the stored file name and the URL are modelled.
- Sending mail is network I/O. A sent mail is an entry appended to the outbox, and the transport never fails.
- express-validator request checks are left out, and `server/middleware/validation.js` is not part of this model. Handlers receive the request as the model's request record.
- Absent request fields are modelled as empty strings or `None`.
- FeedbackController.CreateFeedback: the rating, and the hostelNo fields of complaints, students and authorities, are whole numbers (`int`) in the model. Mongoose `Number` fields also accept fractional values, such as a rating of 4.5, which is stored and answered with 201. A fractional hostel number such as 2.5 passes the 1..13 range check, and the complaint then matches no Hostel Clerk and stays unassigned. Fractional numbers are not modelled, because the client sends whole stars and whole hostel numbers.
- Non-numeric casts and malformed ObjectIds, which Mongoose turns into a CastError and then a 500, are not modelled: ids are natural numbers.
- `populate` and `select('-password')` shape only the reply: replies carry whole records.
- `getAllUsers` (server/controllers/adminController.js:171-192), the authority `getProfile` and `logout` only read or clear a cookie. They are left out.
- `getHostelComplaints` in server/controllers/complaintController.js:229-254 is reached by no route. It is left out.
- Cookies set by the login handlers are left out; the middleware's cookie is an input.
- Case mapping and trimming are ASCII-only. Unicode case folding is not modelled.
- Mongoose's per-path bookkeeping is not modelled. A re-save in the model validates every field the query loaded, which is what Mongoose does by default: the whole record, plus the password only where the handler selects it (`resetPassword`).
- Common.Hash: real bcrypt output is always 60 characters. The stand-in keeps the whole password, so it grows with the password.
- Common.HashInjective: bcryptjs hashes only the first 72 bytes, so two passwords that agree on those bytes share a hash. The stand-in is injective on every length.
- AuthController.ResetThenLogin: "only the new password logs in" holds for the stand-in. With real bcrypt, any password sharing the new one's first 72 bytes also logs in.
- AuthController.GenerateOtp: the random value is a real in [0, 1). JavaScript's floating-point rounding is not modelled.
- `checkAuth` cannot be reached at all: server/routes/auth.js:40 passes the middleware factory itself rather than calling it. The handler is modelled as if reached.
- `path.extname`'s Windows path forms are not modelled; only POSIX names are.
- AdminController.UpdateUser: the request body's update document is modelled as a function from record to record. It runs no validators and no save hook, as `findByIdAndUpdate` does.
- A database error while saving a notice is an unhandled rejection in the route. The model always succeeds.
- Token expiry (`expiresIn`) and the JWT secret belong to the `verify` parameter.
- The profile routes in server/controllers/studentController.js are not part of this model.

## Findings

| source | as written | input that shows it | evidently intended | confidence | as-written member | corrected member |
|---|---|---|---|---|---|---|
| server/controllers/authorityController.js:47-51 | the controller hashes the password and then the save hook hashes it again | register any authority, then log in with the same password: 401 | the password is hashed once, by the hook | not executed | AuthorityController.RegisteredAsWritten, AuthorityController.AsWrittenRegistrationLocksOut | AuthorityController.RegisteredRecord, AuthorityController.RegisteredRecordLogsIn |
| server/controllers/complaintController.js:125-130 | the ownership check reads `req.user.role`, but `req.user` is the stored Student document, which has no role field | student A asks for the token of student B's complaint: 200 with the complaint | 403 for a student who does not own the complaint | not executed | ComplaintController.ComplaintByTokenAsWritten, ComplaintController.StudentReadsOthersComplaint | ComplaintController.ComplaintByToken |
| server/controllers/authController.js:512-523 | `checkAuth` reads `req.user.role` from the stored document, which has no role field | any admitted student, authority or admin: 401 Invalid role | reload the admitted user from its own collection | not executed | AuthController.CheckAuthAsWritten, AuthController.CheckAuthAsWrittenRefusesAdmitted | AuthController.CheckAuth, AuthController.CheckAuthReturnsAdmitted |
