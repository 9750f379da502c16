# A verified model of the survey server's stateful core

The repository is an HTTP server for surveys, exams and question banks on top of a SQL database. Most of it
copies data between requests and tables. This project models the parts that carry state, arithmetic or a
protocol of several steps, and proves what every run of them guarantees. `dafny verify dfyconfig.toml` checks it.

| component | files |
|---|---|
| token-bucket rate limiter of the public routes | `RateLimit.dfy`, `RateLimitTheorems.dfy`, `RateLimitLimits.dfy`, `RateLimiter.dfy` |
| answers: statements, interleaved submissions, saving repeatedly, the service object | `AnswerTable.dfy`, `AnswerRuns.dfy`, `ResumeChain.dfy`, `AnswerService.dfy` |
| trash: counts and bulk handlers | `Trash.dfy`, `BulkTrash.dfy` |
| users, login accounts, role bindings | `Accounts.dfy`, `SystemService.dfy`, `UserList.dfy` |
| uploads on a local disk | `Storage.dfy`, `Uploads.dfy`, `FileService.dfy` |
| paged exports | `Export.dfy` |
| completion stream and its event framing | `Sse.dfy`, `AiStream.dfy` |
| tag column | `Tags.dfy` |
| strings and options | `Text.dfy`, `Options.dfy` |

## How it is modelled

* Objects whose methods change fields are classes (`RateLimiter`, `AnswerService`, `FileService`, `SystemService`,
  `TrashBin`, the chat `Response`); loops that fill buffers are methods with loops. Each is proved against a
  function, and the theorems are about that function.
* Concurrency is a step system: a state, an event for every statement or file operation, `Apply` for one event and
  `Run` for a sequence of them. A theorem about `Run` holds for every interleaving and every prefix, so a crash
  after any step is covered. The service classes record each statement they execute as an event, and let other
  sessions take any steps of their own between two of their statements (`OtherSessions`, `AnyoneElse`,
  `OtherCalls`, `OtherUploads`), whose contracts say no more than whose steps these are not.
* A statement or system call that may fail takes its outcome as a parameter (`loadFails`, `dbFails`, `Faults`,
  `queryOk`, ...), so every pattern of such failures is covered.
* The limiter's clock is an argument that never decreases, seconds are `real`, and the mutex is the atomicity of one
  `Allow`. Generated ids are 26 characters without dots or slashes; where freshness matters it is an assumption that
  is written out, and where it is not assumed an id that is taken makes the insert fail.
* A client of the answer service has a non-empty identity: the name is "guest", a user id that is not empty, or the
  partner's primary key (`internal/service/survey.go:86`). The theorems about saving repeatedly say so as
  `Creator(partner) != ""`.
* A connection whose write was cut short stays broken: nothing more gets through (`AiStream.Sticky`).
* SQL NULL is `None`. Strings are sequences of code points; byte limits go through the UTF-8 length.

## Results that differ from what one might expect

* An administrator's edit that succeeds is lost if the row is trashed between its two statements
  (`AnswerServices.LostEdit`); it takes effect exactly if the row is still live at the second and its id was not
  reused for a row of another project or creator (`AdminUpdate`).
* The number of deleted answers that the bulk handler reports is right exactly if every row it found live was still
  live at its statement; with two sessions deleting one row it is one too many (`BulkTrash.OneTooMany`).
* The number of restored or destroyed answers counts listed ids, not rows. With nobody else at work it is right exactly
  when the ids are distinct and all in the trash (or in the table): `Trash.RestoredCount`, `Trash.DestroyedCount`.
* The 32-bit offset of both exports wraps around to a negative number at 2 147 484 000 rows. The answer export does not
  get there: it writes every row, and a sheet ends at row 1 048 576, so `appendOk` fails first. The repository
  export can get there, since it pages through all templates and keeps those of one repo only.
* `Retry-After: 1` is right exactly for limiters that earn at least one token a second. Reaping is invisible, and
  dropping denied calls changes no other answer, exactly for those that fill a bucket within the idle period. Both
  shipped limiters qualify for all three.
* A created user may be kept out by another account of the same name, since the login query returns any one of them;
  the exact condition is in `Accounts.CreatedLogsIn`.
* The comment in the repository export says that it writes every template; the code keeps those of one repo, and
  the model follows the code.

## Model

| member | source | states |
|---|---|---|
| RateLimiting.RateLimiter.Allow | internal/api/middleware_security.go:70-98 | answers one call and updates the bucket map in place; with sound parameters it says yes exactly when a limiter that keeps the whole request log would |
| RateLimiting.RateLimiter.ReapIdle | internal/api/middleware_security.go:90-96 | the deletion loop, visiting entries in any order, leaves exactly the entries heard from within `idle` |
| RateLimiting.RateLimiter.constructor | internal/api/middleware_security.go:66-68 | a new limiter has an empty log and the given parameters |
| RateLimiting.Recorded | internal/api/middleware_security.go:70-98 | appending a call to the log appends the same answer to the bucket machine and to the full-log machine |
| RateLimit.RefillsCompose | internal/api/middleware_security.go:81-84 | refilling in two instalments under the clamp is refilling once |
| RateLimit.ReapKeepsLevels | internal/api/middleware_security.go:89-96 | forgetting an expired entry changes nobody's level now or later |
| RateLimit.LevelAfter | internal/api/middleware_security.go:74-97 | one call changes only the caller's level, by the token it was given, reaping or not |
| RateLimit.RunSettled | internal/api/middleware_security.go:81-88 | in every run tokens stay between 0 and burst |
| RateLimitTheorems.GcInvisible | internal/api/middleware_security.go:74-96 | with idle·rate ≥ burst the reaping limiter answers every call of every run as one that never deletes |
| RateLimitTheorems.ShippedLimitersAreSound | internal/api/router.go:88-89 | both limiters the router builds satisfy that condition |
| RateLimitTheorems.DeniedCallsNeutral | internal/api/middleware_security.go:81-88 | removing any set of denied calls from a run changes no other answer |
| RateLimitTheorems.RetryAfterOneSecond | internal/api/middleware_security.go:113-118 | a denied caller that waits a second, nothing of its ip admitted in between, is admitted when rate ≥ 1, whatever the idle period |
| RateLimitTheorems.BucketRefinesLog | internal/api/middleware_security.go:70-108 | two numbers per ip answer every run exactly as a recount of every window of the full request log |
| RateLimitTheorems.WindowBound | internal/api/middleware_security.go:70-108 | no ip is admitted more than burst + rate·w times from any call to one w seconds later |
| RateLimitTheorems.MapBounded | internal/api/middleware_security.go:74-97 | after every call the map has at most 1024 entries or as many as ips heard from within `idle` before the latest insertion |
| RateLimitTheorems.EntriesAfter | internal/api/middleware_security.go:74-97 | entry by entry what a call does to the map: only an admitted call with more than 1024 entries there removes any, and exactly the expired ones |
| RateLimitLimits.RetryAfterExactly | internal/api/middleware_security.go:113-118 | for every idle period the one-second promise holds on all runs if and only if rate ≥ 1 |
| RateLimitLimits.GcNeverSeenExactly | internal/api/middleware_security.go:89-96 | reaping is invisible on all runs if and only if idle·rate ≥ burst |
| RateLimitLimits.RefinesLogExactly | internal/api/middleware_security.go:70-108 | the reaping limiter agrees with the full log on all runs if and only if idle·rate ≥ burst |
| RateLimitLimits.DenialsNeutralExactly | internal/api/middleware_security.go:81-96 | dropping denied calls is invisible on all runs if and only if idle·rate ≥ burst; otherwise a denied call can save its caller's entry from being reaped |
| AnswerTable.EditHitsItsRow | internal/service/answers.go:288-314 | whatever its create_by, a live row matches the edit made from it; given columns change, the others stay |
| AnswerTable.HitsResumable | queries/answer.sql:62-65 | a row can be resumed exactly if it is live, of the project, and the participant's own, rows without a creator being the guest's |
| AnswerTable.ResumeWrites | internal/service/answers.go:88-101 | a resume writes, column by column, what is given and keeps what is not |
| AnswerTable.InsertWrites | internal/service/answers.go:111-130 | an insert writes, column by column, what is given, NULL for what is not, and the exam mark exactly for an exam |
| AnswerTable.DeleteRestore | queries/answer.sql:83-84 | delete then restore gives the row back up to update_by |
| AnswerRuns.StepKeepsSnapshots | queries/answer.sql:54-65 | no statement stores a survey text but one read from a published project |
| AnswerRuns.PublicSurveyRead | queries/survey.sql:5-7 | a survey is found exactly for an undeleted project with status 1, with the text and mode of its row |
| AnswerRuns.SnapshotProvenance | internal/service/answers.go:59-134 | in every interleaved run a stored survey text is the one its project's row held at some moment at which it was undeleted with status 1 |
| AnswerRuns.FlightOpened | internal/service/answers.go:59-98 | in every run a submission under way was opened by its own read: same project, creator, input, and the text and mode the project's published row held then |
| AnswerRuns.OwnershipOverRuns | internal/service/answers.go:65-134 | over all runs, a participant step that changes the table patches one live row of the project and creator of the read that opened the request, or adds one fresh row of theirs, and is that request's only effect |
| AnswerRuns.RowIdentity | queries/answer.sql:54-65 | no step moves a row to another project or creator; participants and editors never touch trashed rows |
| AnswerRuns.RowIdentityOverRuns | queries/answer.sql:36-65 | over whole runs a row keeps project and creator, and a trashed row is untouched until restored |
| AnswerRuns.AtMostOneEffect | internal/service/answers.go:82-134 | one request changes the table at most once, however it interleaves |
| AnswerRuns.LostBetween | queries/answer.sql:36-87 | a live row is gone later only if a step in between trashed or destroyed it |
| ResumeChain.SaveIsThreeSteps | internal/service/answers.go:59-134 | uninterrupted and without errors, the three statements are one atomic save |
| ResumeChain.OwnRowIsResumed | internal/service/answers.go:65-108 | the row a save inserted is hit by the client's next save if and only if the client has a non-empty identity |
| ResumeChain.OnlyDeletionsLose | queries/answer.sql:62-65 | no step of another session but deleting the held row makes it unusable |
| ResumeChain.StepSettles | internal/service/answers.go:82-134 | an insert of the client leaves it with a usable row and nothing to insert, and only a deletion of that row ends this |
| ResumeChain.RowsCreated | internal/service/answers.go:59-134 | with the three statements of every save interleaved with other sessions in any way, and any of them failing, a client that passes back its last id creates at most one row plus one per deletion of the live row it held |
| ResumeChain.FoldStep | queries/answer.sql:54-65 | each statement does to the tables what it does to the fold |
| ResumeChain.ChainFolds | internal/service/answers.go:59-134 | if nobody else touches its row, the client ends with one row that equals its first insert patched by each later save that did not fail, with the survey that save read |
| AnswerServices.AnswerService.Submit | internal/service/answers.go:59-135 | whatever others do in between, success wrote exactly the columns of this submission, with the survey of a row published during the call, into the live row to resume or a new one; a new one in place of the one to resume only if that could not be resumed; its own steps touch no other row; when it fails and why |
| AnswerServices.AnswerService.AdminUpdate | internal/service/answers.go:280-318 | a successful edit does what an edit in one go would do at its patch if and only if the row is live then and of the project and creator it was loaded with, and else changes nothing |
| AnswerServices.AnswerService.UpdateInPlace | queries/answer.sql:54-65 | patches the row and reports a row count above zero exactly when the WHERE clause matches |
| AnswerServices.AnswerService.ReadSurvey | internal/service/survey.go:42-64 | unless the query fails, finds a survey exactly for a published undeleted project and takes the text and mode of its row at that moment |
| AnswerServices.AnswerService.Resume | internal/service/answers.go:82-108 | ends the submission on a hit or an error, falls through to the insert otherwise |
| AnswerServices.AnswerService.Insert | internal/service/answers.go:111-133 | adds the row unless the statement fails or the id is taken |
| AnswerServices.AnswerService.SoftDelete | internal/service/answers.go:254-265 | not found exactly for a row that is not live when loaded; otherwise the statement runs, whatever happened in between |
| AnswerServices.EditLands | internal/service/answers.go:280-314 | an edit loaded earlier hits its row if and only if that is live and of the same project and creator; being live is enough unless the id was reused |
| AnswerServices.LostEdit | internal/service/answers.go:280-317 | load, deletion by somebody else, patch: the edit succeeds and the table is as the deletion left it |
| Trash.CountsAddUp | queries/answer.sql:32-33 | live and trashed counts add up to the stored rows of a project |
| Trash.OneRowCounts | queries/answer.sql:78-81 | a row counts once, for its own project and in its own state |
| Trash.OneRowReported | queries/report.sql:4-10 | a live row is finished exactly with temp_save 1 and a draft exactly with 0 |
| Trash.ReportCounters | queries/report.sql:4-10 | finished + draft ≤ total, with equality if and only if every live temp_save is 0 or 1 |
| Trash.SoftDeleteAllSpec | queries/answer.sql:35-36 | deleting a list of ids trashes exactly the listed live rows |
| Trash.RestoreAllSpec | queries/answer.sql:83-84 | restoring a list brings back exactly the listed trashed rows |
| Trash.RestoredCount | internal/api/sk_answers_admin.go:154-175 | restored rows ≤ listed ids, with equality if and only if these are distinct and all trashed |
| Trash.DestroyAllSpec | queries/answer.sql:86-87 | destroying a list removes exactly the listed rows |
| Trash.DestroyedCount | internal/api/sk_answers_admin.go:179-196 | destroyed rows ≤ listed ids, with equality if and only if these are distinct and all present |
| BulkTrash.TookMeans | queries/answer.sql:35-87 | a trash statement changes exactly one row, and that only if there is one in the right state |
| BulkTrash.EffectsBound | internal/api/sk_compat.go:551-559 | a reported count is never below the rows changed, and equal exactly if each counted statement found its row |
| BulkTrash.OvercountNeedsRemoval | internal/service/answers.go:254-265 | a row found live but gone at its statement was trashed or destroyed in between |
| BulkTrash.OneTooMany | internal/api/sk_answers_admin.go:130-151 | a run in which the reported number is one and no row was trashed |
| BulkTrash.TrashBin.Delete | internal/api/sk_answers_admin.go:130-151 | with other sessions between any two statements, `deleted` is the number of rows this call trashed if and only if every row found live was still live at its statement; with nobody else it is the drop in live answers; a database error stops there |
| BulkTrash.TrashBin.Restore | internal/api/sk_answers_admin.go:154-175 | every listed id is reported restored, with other sessions in between; the number is the truth if and only if each row was in the trash at its statement |
| BulkTrash.TrashBin.Destroy | internal/api/sk_answers_admin.go:179-196 | likewise for destroyed rows that were there at their statement |
| Accounts.SeedBijection | migrations/00002_seed_admin.sql:19-26 | the seeded installation has matching users and accounts |
| Accounts.CreateKeepsBijection | internal/service/system.go:306-318 | a committed creation keeps users and accounts one to one |
| Accounts.UpdateKeepsBijection | internal/service/system.go:392-423 | so does a committed update |
| Accounts.DeleteKeepsBijection | internal/service/system.go:439-451 | so does a committed deletion |
| Accounts.UsersMatchAccounts | internal/service/system.go:252-452 | in every reachable state each live user has exactly one live password account, and each live account a live user |
| Accounts.DeletedForever | queries/user.sql:50-51 | no later transaction brings a deleted user back |
| Accounts.DeletedNeverLogsIn | internal/service/auth.go:34-55 | a deleted user is never let in again, in any continuation, by any account and password |
| Accounts.LoginFollowsHistory | internal/service/auth.go:34-55 | in every reachable state an account lets in exactly its user, with the name of its creation and a password matching the hash of its creation or of the last update that gave one, as long as the user was not deleted |
| Accounts.PasswordStays | internal/service/system.go:395-407 | a password that lets a user in does so until an update of that user gives another one or the user is deleted |
| Accounts.OnlyOwnersGetIn | queries/account.sql:3-9 | only a live user gets in, through an undeleted password account of theirs with status 1 and the given name |
| Accounts.ResetPasswordDecides | queries/user.sql:61-63 | after a reset the account lets the user in exactly with a password that matches the new secret |
| Accounts.CreatedLogsIn | queries/account.sql:1-9 | the new account lets a created user in exactly with a matching password; with one, whichever account the query returns lets the user in if and only if no live account had the name before |
| Accounts.BindingsAlwaysBelong | queries/user.sql:83-90 | in every reachable state a role binding belongs to a stored user |
| Accounts.CreatedUser | internal/service/system.go:266-329 | a user created in any reachable state is live, named by its name or else its username, with exactly the given roles |
| Accounts.LastWriteWins | queries/user.sql:36-51 | over every run the last committed update that gives a column of a live user a value decides it, whatever is created, updated or deleted afterwards |
| Accounts.OthersUnchanged | queries/user.sql:31-67 | a transaction leaves the row, the accounts and the roles of every other user alone and adds none |
| Accounts.RolesReplaced | internal/service/system.go:408-422 | after an update the user's roles are exactly the given ones (none on a bare reset, the old ones if nothing is said), everybody else's are theirs |
| Accounts.ForeignBindingsStay | queries/user.sql:83-90 | no transaction touches a binding of another user or another kind of user |
| SystemServices.SystemService.AddUserRoles | internal/service/system.go:320-329 | binds all roles or fails; it succeeds if no statement fails and the row ids are new |
| SystemServices.SystemService.CreateUser | internal/service/system.go:256-334 | all or nothing with a failure at any statement and other calls committing before: the committed state, or nothing done |
| SystemServices.SystemService.UpdateUser | internal/service/system.go:350-424 | all or nothing, with other calls committing between the check and the transaction; the secret is touched exactly for a password that is given and not empty; not found exactly for a user that is not live at the check |
| SystemServices.SystemService.DeleteUser | internal/service/system.go:426-452 | likewise, and it succeeds exactly if the user is live and nothing fails |
| UserList.AttachRoles | internal/api/sk_system.go:525-536 | every listed user gets its group of the batch, nobody gets any if the batch failed |
| UserList.GroupCounts | internal/api/sk_system.go:528-531 | grouping neither loses nor repeats a binding |
| UserList.BatchInOrder | queries/user.sql:74-81 | in scan order a group is the list of the per-user query |
| UserList.BatchMatchesPerUser | queries/user.sql:69-81 | in whatever order the batch arrives, each user gets the multiset of roles of its own query |
| Storage.KeyNormalForm | internal/storage/storage.go:52-59 | resolve fails exactly on keys with nothing left or two dots in a segment; otherwise the path is the root, a slash and plain segments joined by slashes, and is stable under resolving again |
| Storage.ClimbLaws | internal/storage/storage.go:53-54 | anywhere in a key an empty segment and "." mean nothing, ".." takes back the segment before it and at the root means nothing; other segments stay |
| Storage.ResolveClimbs | internal/storage/storage.go:52-59 | a segment followed by ".." can be left out of a key |
| Storage.UploadKeyResolves | internal/service/files.go:81-92 | the key of an upload always resolves, to itself below the root |
| Storage.ExtensionFound | internal/service/files.go:82 | a name has an extension exactly if some dot has no slash after it; it is the part from the last such dot on |
| Storage.UploadableExactly | internal/service/files.go:78-85 | an upload is refused exactly for an empty name or an extension that is denied in whatever case it is written |
| Storage.UploadPath | internal/service/files.go:86-91 | the key is upload/, the start of the id, the id and the lower-cased extension if it has at most 16 bytes; the path is that key below the root |
| Storage.StoredExtShape | internal/service/files.go:82-89 | a stored extension starts with its only dot and has no slash |
| Storage.FinalPathShape | internal/service/files.go:86-91 | where the id sits in the path of an upload |
| Storage.PathsAreDisjoint | internal/storage/storage.go:71-75 | uploads with different ids share no final or temporary path, and no temporary name is any final name |
| Uploads.StepIsLocal | internal/storage/storage.go:61-91 | a step of an upload touches only its own paths, stage and row |
| Uploads.LocalKeepsInv | internal/storage/storage.go:61-91 | such a step that keeps its own half of the invariant keeps all of it |
| Uploads.RunInv | internal/service/files.go:77-120 | the invariant of disk, rows and uploads under way holds in every reachable state |
| Uploads.OthersKeepOwn | internal/storage/storage.go:61-91 | whatever steps other uploads take, an upload finds its own files, stage and row as it left them |
| Uploads.RowImpliesCompleteObject | internal/service/files.go:92-112 | in every reachable state, crashes included, every row's path resolves to an object with exactly that upload's bytes, and a live row is served in full |
| Uploads.NoPartialObjectEver | internal/storage/storage.go:69-89 | no reachable state has anything but a complete object at a final path |
| Uploads.ServedUntilDeleted | internal/service/files.go:133-156 | a recorded upload is served in full until somebody deletes it and never after, in every continuation |
| Uploads.NoDeniedUpload | internal/service/files.go:78-85 | no upload with a denied name is ever started |
| Uploads.CrashForgets | internal/service/files.go:92-112 | an upload without a row when the process stops never gets one |
| FileServices.FileService.Copy | internal/storage/storage.go:77-81 | the temporary file holds the whole stream, or an error removed it, while other uploads go on |
| FileServices.FileService.Save | internal/storage/storage.go:61-91 | whatever other uploads do meanwhile, success leaves exactly the whole object, at its key below the root, a failure nothing but possibly its temporary file; alone, nothing else on the disk changes |
| FileServices.FileService.CloseAndRename | internal/storage/storage.go:82-90 | the complete file moves to its final path, or the temporary file is cleaned up |
| FileServices.FileService.RecordRow | internal/service/files.go:100-112 | records the row, or removes the object again |
| FileServices.FileService.Upload | internal/service/files.go:77-120 | refuses exactly empty names and denied extensions; with other uploads between any two steps, a recorded upload has one whole object below the root and one row and is served in full; a failure leaves no row, and no file unless cleanup fails; alone, nothing else changes |
| FileServices.FileService.Open | internal/service/files.go:133-143 | serves exactly the bytes of an undeleted upload |
| FileServices.FileService.Delete | internal/service/files.go:145-156 | a deleted upload is no longer served; its object stays |
| Export.OffsetAdvances | internal/service/report.go:99 | below 2 147 484 000 rows the 32-bit offset follows the number of rows read |
| Export.ExportAnswers | internal/service/report.go:68-105 | the export is the unpaged table after floor(n/1000)+1 queries; it succeeds if and only if nothing fails and the offset does not wrap |
| Export.ExportRepo | internal/api/sk_c5.go:511-550 | likewise, the rows of one repo in table order |
| Export.FilterSpec | internal/api/sk_c5.go:522-525 | the kept rows are exactly those of the repo, in order |
| Sse.ReadLine | internal/ai/provider.go:120-131 | a line that starts with data:, with or without a space, hands on the rest without white space around it; any other line is as if it were not there |
| Sse.ReadFrame | internal/ai/provider.go:118-131 | how the line reader takes one frame apart, over-long lines included |
| Sse.ReadPayloadsAreClean | internal/ai/provider.go:120-131 | whatever the input, a payload handed on is trimmed, newline-free and not the sentinel |
| Sse.WireRoundTrip | internal/api/ai.go:56-64 | a written list of payloads reads back, ending at the sentinel, if and only if each is newline-free, trimmed, not the sentinel and fits on a line |
| Sse.FramesRoundTrip | internal/api/ai.go:56-64 | a response that ends after any whole frame reads back up to it |
| Sse.CutAnywhere | internal/ai/provider.go:118-131 | a response cut at any byte reads as a prefix of what was sent, of which only the last payload may be truncated |
| AiStream.Response.Send | internal/api/ai.go:44-67 | each accepted delta is one frame on the wire, in order, at the moment it is sent; a refused one is nothing or part of a frame |
| AiStream.SendChoice | internal/ai/provider.go:143-157 | role and content first, then end-of-stream, stopping at a refused delta |
| AiStream.Stream | internal/ai/provider.go:118-164 | the deltas handed over are a prefix of the script of the input, cut only by a refused delta, an over-long line or a connection that breaks; the frames of the accepted ones are on the wire |
| AiStream.StreamBlocks | internal/ai/provider.go:138-163 | a successful stream gives the callback, choice by choice, the role and content of each choice that has either, not marked done, an end for each finish reason, and one end after all; no delta carries an error |
| AiStream.StreamTexts | internal/ai/provider.go:143-151 | the deltas that are not ends say exactly what the choices say, in order |
| AiStream.StreamSemantics | internal/ai/provider.go:120-163 | success means the whole generated text and then a Done delta; a callback error is returned and nothing follows it |
| AiStream.HandleChat | internal/api/ai.go:69-89 | every accepted delta is a frame; then what a refused one left, and the sentinel or one error frame |
| AiStream.ChatRoundTrip | internal/api/ai.go:44-89 | a client that goes away between frames or not at all reads exactly the accepted deltas, and the sentinel if and only if the stream succeeded |
| AiStream.CutChat | internal/api/ai.go:44-89 | whatever part of the response arrives, half-written frames included, reads as a prefix of the accepted deltas and at most one more payload, only the last of them truncated |
| Tags.SplitCommaTrim | internal/api/sk_c5.go:357-376 | the byte machine returns exactly the non-empty trimmed pieces between commas |
| Tags.SelectTags | internal/api/sk_c5.go:199-212 | the first picker lists the first occurrences of all tags in reading order |
| Tags.ListTags | internal/api/sk_admin.go:285-301 | the second picker, built on split and trim, lists the same |
| Tags.PiecesAreClean | internal/api/sk_c5.go:360-366 | every extracted tag is trimmed, non-empty and comma-free |
| Text.TrimSpaceSpec | internal/api/sk_c5.go:361 | trimming takes white space from both ends and nothing else |
| Tags.PaddedTagsReadBack | internal/api/sk_c5.go:357-376 | a column of pieces, each a tag or nothing with any white space around it, gives exactly those tags in order |
| Tags.TagsOfParts | internal/api/sk_c5.go:367-374 | the tags of a column are those before a comma followed by those after it |
| Tags.AllTagsConcat | internal/api/sk_c5.go:201-205 | the tags of several columns follow one another in reading order |
| Tags.PickedTags | internal/api/sk_admin.go:287-301 | a picker lists a tag exactly if some column that is not NULL has it |
| Tags.JoinedTagsReadBack | internal/api/sk_c5.go:463-473 | splitting a joined list gives it back if and only if every tag is trimmed, non-empty and comma-free |
| Tags.DistinctSpec | internal/api/sk_c5.go:205-210 | the same tags, each once, in order of first occurrence |

## Left out

- SystemServices.SystemService.UpdateUser: the statements of one database transaction take effect together; what another transaction may see of it before it commits is not modelled.
- RateLimiting.RateLimiter.Allow: rounding of 64-bit floating point is not modelled, seconds and tokens are real numbers; the pointer to a bucket is the map entry itself.
- Storage.StoredExtShape: lower-casing is that of ASCII letters only, and path separators are those of Unix.
- JSON, password hashing, token signing, id generation and the spreadsheet format are parameters or are not modelled; a write that the spreadsheet library refuses (such as its row limit) is one of the failures given by `appendOk`.
- The columns `exam_info`, `repo_id` and `birthday`, timestamps, and who created a file or user: copied, never decided on.
- Loading roles and signing a token at the end of a login: they can only turn a success into an error.
- Spreadsheet import loops, `getCell` and `rowIsEmpty`: each imported row is one insert, which the runs of `AnswerRuns` include as an event; the cell helpers would add only easy members.
- DeleteDictWithItems: two statements in a transaction, the shape of `DeleteUser` without its invariant.
- Username uniqueness: neither the code nor the schema enforces it, so it is not claimed.
- The order of rows with equal creation time, text search filters, and commits whose outcome the network hides.
- Routing, request binding, response envelopes, plain record editing, deployment and the web front end.
