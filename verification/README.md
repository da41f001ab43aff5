# Smugbox, modelled and proved in Dafny

Smugbox publishes photo albums from Lightroom. Its hard part is a set of small
protocols between a database table, a file tree, a background worker, an admin
`gc` command and a Lightroom plugin that retries. This project models each of
them step by step and proves what it promises over every run.

One SQL statement is one step (the database has a single connection), one rename
or removal of a file is one step, and one section under a mutex is one step.
Where the program is a set of processes, a module holds the machine
(`Enabled`, `Apply`, `CanRun`, `After`), the theorems speak about `After` of any
run from `INITIAL`, and a further module holds the code of the processes as
classes and methods. Between two of its steps a method lets everybody else run
(`Others`). Every step, of whomever, goes into one ghost `log`, which only grows and
always leads from `INITIAL` to where the tables and the files are (`Valid`); the steps
that the methods themselves take are also kept apart, as `deeds`, with their `places` in the
log. So a contract can say which statements a call has made, in which order, and what was
true when each of them was made; and on a server that is `alone` nothing else has happened
(`Server.AloneOnlyDeeds`). The theorems on all runs hold of every log: `Server.NotTorn`,
`Server.NothingLeft`, `World.OneRow`, `World.OneAlbum`, and the answers of `DeletePhoto`,
`ServeVariant`, `CreateAlbum` and `PublishAlbum` rest on them. `Fails` in such a method is an
I/O error or a cancelled request and may happen at any point. On a server that is
`healthy` it never does, and there each method fails for a stated reason only, which its own
last step has met; what it does meet is counted in `faults`, and an error is answered where one was met.

| module | what it is about |
|---|---|
| `Pipeline` | upload, replace, metadata update, delete, the variant worker and visitors, as one machine |
| `PipelineReady` | a visible photo is whole, under three named hypotheses about that photo |
| `PipelineOrphans` | a deleted photo leaves nothing, and exactly which steps do leave something; a quiet photo agrees with itself |
| `PipelineRaces` | the three hypotheses are exact: a step breaks one if and only if it can end in a torn photo |
| `Backend`, `Handlers` | the photos table and the file tree; the upload, delete and file handlers, `generate` and `drain`, as code |
| `Wakeup` | `kick`, `run`, `idle`: no kick is lost, and idle means served |
| `IdleWorker` | the same over the photos table: idle means that every photo is visible or failed, and every photo of a kick was settled or failed since |
| `Gc` | `gc` beside a running server, with clocks |
| `AlbumCreate`, `AlbumCreateOnce` | creating an album exactly once, across clients and server |
| `CreateHandlers` | `createAlbum` and the plugin's publish with its retries, as code |
| `Forest`, `Folders`, `FolderRepair` | the folder tree, its requests and queries, and the plugin's repair |
| `Limiter` | the rate limiter against one that never forgets |
| `Sessions`, `Passwords` | visitor grants against password versions |
| `PublishRun` | what a publish run records, lists as failed and lists as left behind |
| `ZipNames`, `Slugs` | names inside a zip, URL slugs |
| `JsonStrings`, `JsonValues` | the plugin's JSON printer and parser |
| `Base`, `Deeds` | what several modules share |

## What the proofs turned up

The unconditional form of several promises is false of the code. For each of them a
condition is proved under which the promise holds, and that without it, it fails.

- A visible photo need not be whole. It can go wrong in three ways: a file comes back,
  after another took its place, while the worker still holds a snapshot of its first
  time and renders the other one; a replacement by another file ends between `Commit`
  and `UpdatePhoto`; the worker marks the row between such a replacement's
  `MarkVariantsPending` and `UpdatePhoto`. Nothing else goes wrong, and each of the three
  does: `PipelineRaces.HypothesesAreExact` says so step by step, and
  `PipelineRaces.EachHypothesisIsNeeded` has a run for each. Uploading the same file
  again, or bringing a file back while the worker holds nothing of it, is harmless.
- A delete can leave a directory behind, exactly if a replacement stands between
  `MarkVariantsPending` and its `Commit` when the files have been removed
  (`PipelineOrphans.LeakReachableIff`), or if whoever is to remove or claim the files is
  cut off (`PipelineOrphans.StepLeaksIff`).
- `gc` can take the files of an upload exactly if that upload pauses for longer than the
  grace period (`Gc.UploadLostIffSlow`). Through an album directory that was empty when
  it looked, it can also take the directory of a photo that has a row
  (`Gc.EmptyAlbumRace`); what such a removal takes is
  `Gc.AlbumRemovalTakesExactlyTheNewer`.
- A collection can end with two albums: if its create key could not be kept
  (`AlbumCreateOnce.UnstoredKeyMakesTwo`), or its album is deleted while an old request
  is still on its way (`AlbumCreateOnce.DeleteMakesTwo`). Exactly when is
  `AlbumCreateOnce.TwoRowsIffTwoKeys`: when a publish uses a key while another key of the
  collection has a row or may still make one.
- Two folder moves at the same time can make a cycle
  (`Forest.ConcurrentMovesMakeACycle`), exactly if each folder is moved below the other
  (`Forest.ConcurrentMovesIff`).
- A repair that reports success may still leave another chain on the server: a folder
  create that is answered with an existing folder takes it where it is
  (`FolderRepair.ReplayGoesAstray`). The chain is restored exactly if no two sets come by
  the same folder and each such folder is already in place, which the table and the
  stored ids tell before the repair (`FolderRepair.Plugin.ResolveParent`, `Repairable`).
- The worker can say idle over a photo that nobody has looked at, if a drain could not
  read the table or was cancelled (`IdleWorker.CutDrainLies`). A drain may be cut off
  exactly if there has been another kick, or nothing that waits is left on its list
  (`IdleWorker.CutDrainTrustedIffLate`).
- The comment on `validSlug` says that it accepts what `slugify` could have made.
  It accepts more (`Slugs.ValidButNeverTried`); the exact set is
  `Slugs.TriedExactly`.
- `idle` looks at both flags and at the channel. For "every kick has been served"
  the two flags are enough (`Wakeup.IdleMeansServed`), and neither is enough
  without the other (`Wakeup.BothFlagsAreNeeded`); the channel only tells of a
  drain still to come.

## Model

| member | source | states |
|---|---|---|
| PipelineReady.ReadyIsWhole | backend/internal/api/variants.go:164-217 | In every interleaving of uploads, replacements, deletes, restarts and the worker that keeps to three hypotheses about the photo, a visible row has an original that matches its hash, exactly the expected variants, all rendered from that original, and no replacement by another file in flight |
| PipelineReady.EveryRequestIsServed | backend/internal/api/photos.go:55-75 | So a visitor of a visible photo gets the asked variant of the original it had when the row was read, or that original itself where large was not needed, and never a missing file, whatever but a hide or a delete happens between reading the row and opening the file |
| PipelineOrphans.DeletedLeavesNothing | backend/internal/api/publish_albums.go:313-336 | Row delete and file removal against a generation in flight, in any order and with replacements beside them: once nobody answers for the photo any more, no file or directory of it remains, unless a replacement committed too late or somebody was cut off |
| PipelineOrphans.StepLeaksIff | backend/internal/storage/storage.go:180-199 | A step leaves a directory that nobody answers for if and only if it is the Commit of a replacement whose photo is gone, or cuts off the one that answers for it |
| PipelineOrphans.LeakReachableIff | backend/internal/api/publish_photos.go:247-268 | After a photo is deleted and its files are removed, a directory of it can come back, and stay, if and only if a replacement stands between MarkVariantsPending and its Commit |
| PipelineOrphans.QuietMeansAgreement | backend/internal/api/publish_photos.go:255-276 | Whenever nothing is under way for a photo, it has a directory if and only if it has a row, and then the original is the one of the row |
| PipelineOrphans.DeleteDuringReplaceLeaks | backend/internal/api/publish_photos.go:250-268 | Run: a delete inside a replacement leaves a directory nobody answers for |
| PipelineRaces.HypothesesAreExact | backend/internal/api/variants.go:189-217 | After any run that keeps to the three hypotheses, a step keeps to them if and only if no continuation that does shows the photo torn |
| PipelineRaces.ReturnTears | backend/internal/db/photos.go:169-186 | A replacement by a file whose hash the worker still holds for the photo, over another file, has a continuation that ends torn |
| PipelineRaces.CutOffAgreesIff | backend/internal/api/publish_photos.go:250-276 | When a request or the process ends, the stored original is the file of the row if and only if no replacement by another file stood between Commit and UpdatePhoto |
| PipelineRaces.MarkInsideTears | backend/internal/db/photos.go:161-186 | Run: a mark between hiding the row and rewriting it shows the new file with the old variants |
| PipelineRaces.ReturningFileTears | backend/internal/db/photos.go:169-186 | Run: a file that comes back slips past the content-hash guard |
| PipelineRaces.LostUpdateTears | backend/internal/api/publish_photos.go:250-276 | Run: a replacement that ends between Commit and UpdatePhoto shows a row whose hash is not the file's |
| PipelineRaces.EachHypothesisIsNeeded | backend/internal/api/publish_photos.go:247-276 | None of the three hypotheses can be dropped from the theorem |
| PipelineRaces.VisibleAfterReplaceIffMarkedInside | backend/internal/db/photos.go:98-108 | Whatever happens during a replacement, the row comes out visible if and only if a mark matched it in between |
| Handlers.Server.Derive | backend/internal/image/derive.go:58-90 | Produces every wanted variant, but large only if the width or the height is over 2560, while others run; it stops only because the original was missing at a rendering step, or the server is not healthy |
| Handlers.Server.CommitAll | backend/internal/api/variants.go:189-193 | Commits every staged file, in any order; it stops only because the directory was gone at a rename, or the server is not healthy |
| Handlers.Server.Prune | backend/internal/api/variants.go:196-202 | Removes the wanted variants that were not produced, as a run of the machine |
| Handlers.Server.Publish | backend/internal/api/variants.go:203-216 | Without an error, the log has the mark of this job since the call began; a healthy server has none |
| Handlers.Server.Generate | backend/internal/api/variants.go:164-217 | Without an error, the generation came to its mark, or could not read the original and after that found the row gone; an error means that it could not read the original of a row that was still there after, or that the directory was gone at a rename, or that the server is not healthy |
| Handlers.Server.Drain | backend/internal/api/variants.go:126-159 | An uncancelled drain that can list the table takes every row pending at its listing, and since then the log has for each of them the end of its generation without an error, unless it is in failed; every new entry in failed has a generation that ended in an error; a healthy server always gets to the end |
| Backend.DoneIsSettled | backend/internal/db/photos.go:161-186 | A mark in the log settles the photo: it was visible with that hash, re-hashed or gone at a moment of the log |
| Handlers.Server.ReplacePhoto | backend/internal/api/publish_photos.go:247-276 | Success means hide, make the directory, rename, rewrite, in this order, and the row has the new file's hash and size; otherwise its last step found the row or the directory gone, or the server is not healthy |
| Handlers.Server.UploadPhoto | backend/internal/api/publish_photos.go:255-284 | Success means make the directory, rename, insert, in this order, and the row is there, hidden; otherwise its rename found the directory gone, or its insert was refused at that moment and the files were taken back, or the server is not healthy; an insert that takes effect is answered with success |
| Handlers.Server.DeletePhoto | backend/internal/api/publish_albums.go:313-336 | Deleted means that this call deleted the row and then removed the files, or on an unhealthy server left them; not found means that it did neither and the row was gone at some moment of the call; an internal error that it did neither and the storage failed; on any server nothing is left if nobody answers for the photo, was cut off or committed too late |
| Handlers.Server.DeleteAlbum | backend/internal/api/publish_albums.go:249-263 | Album row and by cascade its photos first, then the directory; afterwards the row is gone, and unless the server is unhealthy so are the directories of all its photos |
| Handlers.Server.ServeVariant | backend/internal/api/photos.go:42-92 | A visitor who is answered with anything but not found or an error read a visible row, and gets what was there of the asked variant, or of the original where there was no large, when the file was opened; that is the file due for the row, if the log keeps to the three hypotheses and has no hide or delete of the row before; not found means that the row was hidden or gone at some moment of the call |
| Handlers.Server.AloneOnlyDeeds | backend/internal/api/variants.go:164-217 | Where nobody else does anything, the log is what the calls have done, and where they have led |
| Handlers.Server.NotTorn | backend/internal/api/variants.go:164-217 | After any calls, as long as the log keeps to the three hypotheses about a photo, it is not shown torn |
| Handlers.Server.NothingLeft | backend/internal/api/publish_albums.go:313-336 | After any calls, a photo that nobody answers for has no directory, if nobody was cut off and no replacement committed too late |
| Wakeup.NoLostWakeUp | backend/internal/api/variants.go:69-112 | A set flag always has a token, a kick about to push one, or a woken loop behind it |
| Wakeup.IdleMeansServed | backend/internal/api/variants.go:120-124 | Idle implies that every kick begun has a finished drain that started after it |
| Wakeup.BothFlagsAreNeeded | backend/internal/api/variants.go:116-124 | Neither flag alone implies it |
| Wakeup.VariantWorker.Kick | backend/internal/api/variants.go:69-81 | Flag, then token, others in between; it warns exactly if the worker had stopped when the flag was set |
| Wakeup.VariantWorker.IsIdle | backend/internal/api/variants.go:120-124 | Answers yes only when every kick has been served |
| Wakeup.VariantWorker.Serve | backend/internal/api/variants.go:106-112 | A round serves every kick begun before it |
| Wakeup.VariantWorker.Run | backend/internal/api/variants.go:83-114 | The loop is a run of the machine and ends stopped |
| IdleWorker.IdleMeansVisible | backend/internal/api/variants.go:116-124 | If the worker is neither busy nor kicked nor just woken, and drains were cut off only late, every row of the table is now visible, or in failed with its hash, but for those that an upload changed and has not kicked for yet |
| IdleWorker.IdleMeansSettled | backend/internal/api/variants.go:69-159 | If the worker is neither busy nor kicked and drains were cut off only late, every photo that was in the table at any kick has been visible with its hash, replaced, gone or failed at some moment since, whatever uploads and deletes did meanwhile |
| IdleWorker.CutDrainTrustedIffLate | backend/internal/api/variants.go:126-137 | A drain may be cut off, and the two flags still be trusted in every continuation, if and only if there has been another kick, or no photo that waits is left on its list, or in the table where it had no list yet |
| IdleWorker.CutDrainLies | backend/internal/api/variants.go:126-137 | Run: a drain that could not read the table, and idle over a photo nobody looked at |
| Gc.OrphansExactly | backend/internal/storage/storage.go:323-341 | Junk, unknown photo directories and empty album directories older than the grace period, and nothing else |
| Gc.GcTargets | backend/cmd/smugbox/admin.go:240-259 | The loops compute exactly that from the rows and the listing, and append the stale staging files |
| Gc.StaleExactly | backend/internal/storage/storage.go:346-365 | The staging files older than the limit, and no others |
| Gc.RemovedPhotoHasNoRow | backend/cmd/smugbox/admin.go:240-296 | If the upload of a photo does not pause for longer than the grace period and its id is not reused, then when gc removes its directory it has no row then or ever after, in every interleaving and whatever other uploads do |
| Gc.UploadLostIffSlow | backend/internal/storage/storage.go:257-264 | An upload that pauses for h at most between the changes to its directory and its row can lose its files to gc if and only if h is longer than the grace period |
| Gc.AlbumRemovalTakesExactlyTheNewer | backend/cmd/smugbox/admin.go:278-291 | Removing an album directory seen empty takes exactly the photo directories made since |
| Gc.EmptyAlbumRemovalIsHarmless | backend/internal/storage/storage.go:291-300 | It takes none if nothing is committed into that album between the walk and the removal |
| Gc.EmptyAlbumRace | backend/cmd/smugbox/admin.go:283-283 | Run: otherwise it can take the directory of a photo with a row |
| AlbumCreateOnce.OneRowPerKey | backend/internal/api/publish_albums.go:114-167 | Any number of requests with one key, interleaved by statement and with slug collisions: as long as no row with that key is deleted, at most one row has it, and every answer that names a row names that one |
| AlbumCreateOnce.LoserFindsTheRow | backend/internal/api/publish_albums.go:157-162 | A request that lost the race for its key always finds the winner's row |
| AlbumCreateOnce.ExactlyOnce | lightroom-plugin/smugbox.lrplugin/PublishTask.lua:100-138 | With the key of the collection kept and none of its own rows deleted, any run of lost messages, retries, restarts and later publishes makes at most one row for it, and the recorded id is that row, whatever becomes of other collections and albums |
| AlbumCreateOnce.TwoRowsIffTwoKeys | lightroom-plugin/smugbox.lrplugin/PublishTask.lua:96-119 | With deletes and lost keys too, a collection never has two rows as long as none of its publishes uses a key while another of its keys has a row or may still make one; and a publish that does so can end in two |
| AlbumCreateOnce.UnstoredKeyMakesTwo | lightroom-plugin/smugbox.lrplugin/PublishTask.lua:96-119 | Run: with a key the catalog refused, two rows |
| AlbumCreateOnce.DeleteMakesTwo | lightroom-plugin/smugbox.lrplugin/PublishTask.lua:398-407 | Run: with a delete and a late request, two rows |
| CreateHandlers.AlbumTable.Insert | backend/internal/db/albums.go:57-75 | Inserts unless the slug or the key is taken, and changes nothing otherwise |
| CreateHandlers.AlbumTable.HasIdempotencyKey | backend/internal/db/db.go:141-154 | Whether a row has the key; an empty key never does |
| CreateHandlers.AlbumTable.GetAlbumByIdempotencyKey | backend/internal/db/albums.go:85-88 | The row with the key, or none |
| CreateHandlers.World.ClassifyError | backend/internal/db/albums.go:61-70 | A broken constraint is reported as the key's exactly if a row has the key at that second statement |
| CreateHandlers.World.WithUniqueSlug | backend/internal/api/slug.go:65-82 | The name's slug first; another insert only after one that was refused and whose key was not taken at the count behind it; at most 11, and a collision is only reported after all of them |
| CreateHandlers.World.CreateAlbum | backend/internal/api/publish_albums.go:97-168 | If no row with its key is deleted, an answer that names a row names the only one with the key, and a healthy server with the parent there fails only after 11 inserts, the first for the name's slug, each of which found its slug taken; in any case the call's statements are the lookup, the inserts with their counts, and the fetch of the winner's row, and the answer follows from what they met |
| CreateHandlers.World.PendingCreateKey | lightroom-plugin/smugbox.lrplugin/PublishTask.lua:100-120 | The stored key if there is one and the catalog gives it, else a new one, kept if the catalog takes it |
| CreateHandlers.World.SendWithRetry | lightroom-plugin/smugbox.lrplugin/SmugboxAPI.lua:94-119 | It goes on after every transient reply and no other, until 6 sends have been made or the user cancels; what it returns is the last reply, which fits the state of its request |
| CreateHandlers.LadderSays | lightroom-plugin/smugbox.lrplugin/SmugboxAPI.lua:91-112 | It goes on after no headers, a 5xx or a bare 404 only, and ends early, if not canceled, only with a 2xx or something that is none of these |
| CreateHandlers.World.PublishAlbum | lightroom-plugin/smugbox.lrplugin/PublishTask.lua:374-395 | It returns an id exactly if the last reply was a good one, and then that id, recorded and with the key forgotten; otherwise the replies were an exhausted ladder, a refusal by the handler or on an unreliable network, or a cancel, and the key stays; the call is repeated once exactly if the folder was gone and could be repaired; with the key kept and no row of the collection deleted, what is recorded is the only row made for it |
| CreateHandlers.World.OneRow | backend/internal/api/publish_albums.go:114-167 | After any calls, while no row with the key has been deleted, an answer that names a row names the only one with its key |
| CreateHandlers.World.OneAlbum | lightroom-plugin/smugbox.lrplugin/PublishTask.lua:100-138 | After any publishes, while the key of the collection is kept and none of its rows deleted, what it has recorded is the only row made for it |
| Forest.ForestIffChains | backend/internal/db/folders.go:130-155 | Existing parents and no cycle, exactly if every folder has a chain from the root |
| Forest.ChainUnique | backend/internal/db/folders.go:130-155 | A folder's chain is unique |
| Forest.ChainRepeatFree | backend/internal/db/folders.go:130-155 | A chain names no folder twice |
| Forest.MoveIffNotBelow | backend/internal/api/publish_folders.go:136-160 | A move leaves a forest if and only if the folder is not on the chain of its new parent |
| Forest.Deleted | backend/internal/db/migrations/00003_folders.sql:4-4 | Removing a subtree leaves a forest |
| Forest.ConcurrentMovesMakeACycle | backend/internal/api/publish_folders.go:143-162 | Two moves that each pass the check make a cycle if both are checked first |
| Forest.ConcurrentMovesIff | backend/internal/api/publish_folders.go:136-162 | Two moves that are both checked before either is made leave a forest unless each folder is moved below the other |
| Folders.Up | backend/internal/db/folders.go:134-142 | The recursive query up ends on every folder and gives its chain, root first |
| Folders.Down | backend/internal/db/folders.go:159-168 | The recursive query down gives exactly the folders that have the given one on their chain |
| Folders.Cascade | backend/internal/db/migrations/00003_folders.sql:4-12 | Deleting rows whose parent is gone until none is left removes exactly that same set |
| Folders.FolderTable.SubtreeAlbumIDs | backend/internal/db/folders.go:159-180 | Exactly the albums whose folder has the given one on its chain |
| Folders.FolderTable.CreateFolder | backend/internal/api/publish_folders.go:70-118 | Keeps the forest; replays a taken key, refuses a missing parent, otherwise adds one new row where asked; an internal error only if the storage fails |
| Folders.FolderTable.UpdateFolder | backend/internal/api/publish_folders.go:120-167 | Keeps the forest; a move is made exactly as asked, or refused for a missing folder, a missing parent, or because it would make a cycle; an internal error only if the storage fails |
| Folders.FolderTable.PlaceAlbum | backend/internal/api/publish_albums.go:196-202 | An album only ever gets a folder that exists, and is refused only if that folder does not or the storage fails |
| Folders.FolderTable.DeleteFolder | backend/internal/api/publish_folders.go:169-190 | Removes the files of exactly the albums whose rows vanish, but for those that could not be removed, and touches nothing else; on a healthy server none is left |
| FolderRepair.StepOnTrackIff | lightroom-plugin/smugbox.lrplugin/PublishTask.lua:159-189 | Moving, replaying or making the folder of the next set leaves the walk on a way to the chain of sets if and only if it was on one |
| FolderRepair.ReplayMirrorsIff | lightroom-plugin/smugbox.lrplugin/PublishTask.lua:171-181 | A replayed create mirrors if and only if the sets before are mirrored and the existing folder is already below them |
| FolderRepair.ReplayGoesAstray | lightroom-plugin/smugbox.lrplugin/PublishTask.lua:171-181 | Run: on a healthy server a repair succeeds, and the folder it stored hangs elsewhere than its set |
| FolderRepair.ResolveOne | lightroom-plugin/smugbox.lrplugin/PublishTask.lua:159-189 | One set is moved, made below its parent or answered with the folder of its key, or on the normal path left alone, and fails for the reason its answer names only |
| FolderRepair.Plugin.ResolveParent | lightroom-plugin/smugbox.lrplugin/PublishTask.lua:149-191 | From any forest and any ids the server has given out: a repair that succeeds leaves the server's chain the chain of sets if and only if no two sets come by one folder and each replayed create finds its folder in place; one that fails had a storage error, or was refused a move and could not have ended so. On the normal path stored ids stay, the others get the folder with their key or a new one below the set before, nothing else on the server changes, and it stops only below a stored folder that is gone or for a storage error |
| FolderRepair.NormalPathIff | lightroom-plugin/smugbox.lrplugin/PublishTask.lua:149-191 | The normal path leaves the server's chain the chain of sets if and only if every folder that a set had or was answered with was below that of the set before, and no two new ones have one key |
| Limiter.RateLimiter.DoSweep | backend/internal/auth/ratelimit.go:85-95 | Forgets exactly the full buckets, at most every interval unless forced |
| Limiter.RateLimiter.Allow | backend/internal/auth/ratelimit.go:49-74 | The answer, the wait and the new state of the specification |
| Limiter.LimiterRefinesUnbounded | backend/internal/auth/ratelimit.go:49-95 | For every call sequence on a monotone clock, each call not refused for key space is answered like a bucket that never forgets and starts full; the map stays within its bound |
| Limiter.TokenBudget | backend/internal/auth/ratelimit.go:62-73 | In any window a key is allowed at most capacity plus rate times length calls, whatever was swept |
| Limiter.RetryAfterIsHonest | backend/internal/api/unlock.go:101-104 | At the configured rate, waiting the rounded-up Retry-After makes the next call of the key succeed |
| Limiter.NoSoonerThanTheWait | backend/internal/auth/ratelimit.go:70-73 | And no call of the key that comes before the wait is over is allowed |
| Limiter.RefusedIff | backend/internal/auth/ratelimit.go:54-61 | A call is refused for want of room if and only if maxKeys buckets are short of full at that moment, and its own is untracked, or full and due to be swept |
| Sessions.AddRemembers | backend/internal/auth/cookie.go:45-57 | Dropping old grants early loses nothing: one more unlock gives what remembering all would give |
| Sessions.RememberedIff | backend/internal/auth/cookie.go:17-18 | An album's last unlock is kept exactly while fewer than 20 other albums were unlocked since |
| Sessions.RememberedIsLastUnlock | backend/internal/auth/cookie.go:43-57 | And every grant is some album's last unlock |
| Sessions.Session.Add | backend/internal/auth/cookie.go:45-57 | The grants are the 20 most recently unlocked distinct albums at their last unlocked versions |
| Sessions.Session.Granted | backend/internal/auth/cookie.go:34-41 | Whether there is such a grant |
| Passwords.SameVersionSamePassword | backend/internal/api/publish_albums.go:218-240 | Equal versions: the same password then, now and at every moment between |
| Passwords.AlbumTable.CreateAlbum | backend/internal/api/publish_albums.go:135-147 | A password starts at version 1, none at 0 |
| Passwords.AlbumTable.UpdateAlbum | backend/internal/api/publish_albums.go:218-240 | The version stays exactly when the password does; sending the same one again changes neither |
| Passwords.AlbumTable.SetPassword | backend/cmd/smugbox/admin.go:162-207 | The admin command succeeds exactly for an existing album and no password or one of 1 to 72 bytes, and then always makes a new version |
| Passwords.Visitor.Unlock | backend/internal/api/unlock.go:50-98 | A grant exactly for the right password of a protected album, at its current version |
| Passwords.Visitor.AlbumAccess | backend/internal/api/access.go:21-34 | A protected album opens exactly if its last unlock is remembered and the version is the same, and then its password has not been touched since |
| Passwords.Site.Administer | backend/internal/api/publish_albums.go:218-240 | Whatever is written to the albums, what a visitor has unlocked keeps its meaning |
| PublishRun.Publish.Upload | lightroom-plugin/smugbox.lrplugin/PublishTask.lua:446-459 | The first upload is of what the photo was, another one follows only where that photo is gone, as new, or the album is, into the one made again, and the last reply is the one that counts; the album is made again only if the server said that it is gone and it has not been made again already |
| PublishRun.Publish.Book | lightroom-plugin/smugbox.lrplugin/PublishTask.lua:461-479 | A rendition is recorded, or listed as failed by its line, and listed as left behind exactly while the album has not been made again |
| PublishRun.Publish.PublishAll | lightroom-plugin/smugbox.lrplugin/PublishTask.lua:434-480 | The loop keeps this, and makes the album again at most once; every rendition is processed, unless one came back canceled or the album could not be made again; every upload belongs to the rendition whose outcome it explains |
| PublishRun.ProcessRenderedPhotos | lightroom-plugin/smugbox.lrplugin/PublishTask.lua:395-511 | Every recorded rendition is in the run's final album or named in the list of those left in the deleted one; every other processed one is in the failures, with what the renderer said, or its file name and the last reply |
| ZipNames.CandidatesDiffer | backend/internal/api/download.go:104-106 | Different numbers make names that differ ignoring case |
| ZipNames.Names.UniqueZipName | backend/internal/api/download.go:93-113 | The name itself if free, else the first free number from the name's count on; the search ends because seen is finite |
| ZipNames.RenamedKeepsExt | backend/internal/api/download.go:102-105 | A renamed entry keeps its extension |
| ZipNames.ZipEntries | backend/internal/api/download.go:64-88 | For every list of photos the entries are one for each that opens, in order, and pairwise distinct ignoring case; one keeps its photo's name exactly if no earlier entry has it, and is otherwise numbered from one more than the uses of that name on; it breaks off exactly at the first entry that cannot be written |
| ZipNames.FirstRepeat | backend/internal/api/download.go:91-113 | The first repeat of a name is numbered from 2 on |
| Slugs.MatchesIffLooks | backend/internal/api/access.go:11-11 | The slug pattern, letter by letter |
| Slugs.TrimmedIsJoined | backend/internal/api/slug.go:22-40 | The builder, trimmed, is the words of the name joined by single dashes |
| Slugs.CutLooks | backend/internal/api/slug.go:41-43 | Cutting gives the longest slug of at most 80 bytes that the text begins with |
| Slugs.SlugifyIdentity | backend/internal/api/slug.go:19-48 | A slug is its own slug |
| Slugs.RangeExactly | backend/internal/api/slug.go:16-48 | slugify makes exactly the strings of at most 80 bytes that match the pattern |
| Slugs.Slugify | backend/internal/api/slug.go:19-48 | The loop computes this |
| Slugs.SlugSuffix | backend/internal/api/slug.go:52-61 | Each byte is replaced by its letter or digit |
| Slugs.EverySuffixChar | backend/internal/api/slug.go:50-61 | Each of the 36 letters and digits is made from some byte |
| Slugs.TriedExactly | backend/internal/api/access.go:13-16 | What withUniqueSlug may try is what validSlug accepts, but beyond 80 bytes only with a suffix |
| Slugs.ValidButNeverTried | backend/internal/api/access.go:13-16 | validSlug accepts a string that is never made |
| Slugs.WithUniqueSlug | backend/internal/api/slug.go:65-82 | At most 11 attempts, the name's own slug first, then that slug with the suffix of the next random bytes, another only after a collision, each accepted by validSlug; the outcome is that of the last attempt, or a failure of the random source |
| JsonStrings.FirstPass | lightroom-plugin/smugbox.lrplugin/dkjson.lua:146-146 | The first escaping pass writes a text that stands for the given bytes |
| JsonStrings.PassKeeps | lightroom-plugin/smugbox.lrplugin/dkjson.lua:147-156 | Every later pass keeps what a text stands for |
| JsonStrings.QuoteString | lightroom-plugin/smugbox.lrplugin/dkjson.lua:144-158 | The passes in their order |
| JsonStrings.ScanString | lightroom-plugin/smugbox.lrplugin/dkjson.lua:443-502 | The chunked loop reads what the byte-by-byte definition reads, on every text |
| JsonStrings.QuoteRoundTrip | lightroom-plugin/smugbox.lrplugin/dkjson.lua:144-158 | For every byte string, scanstring gives back what was quoted and ends behind the closing quote |
| JsonStrings.QuotedIsPrintable | lightroom-plugin/smugbox.lrplugin/dkjson.lua:144-158 | What quotestring writes has no control byte, whatever it is given |
| JsonStrings.PassesAreExact | lightroom-plugin/smugbox.lrplugin/dkjson.lua:147-156 | The later passes escape exactly the listed code points beyond ASCII |
| JsonStrings.EscapeReads | lightroom-plugin/smugbox.lrplugin/dkjson.lua:443-502 | Whatever encoder wrote it, the escape of a code point with digits in either case, or the pair of escapes beyond 0xffff, is read as its UTF-8, and one of ASCII as that one byte |
| JsonStrings.UnicharIsUtf8 | lightroom-plugin/smugbox.lrplugin/dkjson.lua:419-441 | unichar makes UTF-8 of every code point: the shortest form, from which it can be read back |
| JsonValues.ScanWhite | lightroom-plugin/smugbox.lrplugin/dkjson.lua:395-414 | White space, byte order marks and comments are skipped |
| JsonValues.BlankSkipped | lightroom-plugin/smugbox.lrplugin/dkjson.lua:395-414 | Each space, byte order mark, line comment up to its line end and block comment up to its first end is skipped |
| JsonValues.StopsAtNoBlank | lightroom-plugin/smugbox.lrplugin/dkjson.lua:395-414 | And where it stops, none of them stands |
| JsonValues.ParseTable | lightroom-plugin/smugbox.lrplugin/dkjson.lua:506-549 | The loop of scantable reads what the recursive definition reads; a null among the entries is a hole, and none behind the last value |
| JsonValues.ParseValue | lightroom-plugin/smugbox.lrplugin/dkjson.lua:551-585 | So does scanvalue |
| JsonValues.Encode2 | lightroom-plugin/smugbox.lrplugin/dkjson.lua:253-354 | Writes the encoding behind what the buffer holds |
| JsonValues.ValueRoundTrip | lightroom-plugin/smugbox.lrplugin/dkjson.lua:551-585 | scanvalue on an encoding, wherever it stands, gives the value back at the right end position; only a boolean must not run on into a longer name |
| JsonValues.DecodeEncode | lightroom-plugin/smugbox.lrplugin/dkjson.lua:595-598 | So decode undoes encode, for strings, booleans, arrays without null and objects with distinct keys |
| JsonValues.KnownTexts | lightroom-plugin/smugbox.lrplugin/dkjson.lua:253-354 | Some values and the text that JSON has for them |

## Left out

- HTTP routing, request bodies, timeouts, logging, the frontend, Lightroom's dialogs, config and deployment: no protocol of their own.
- Image work, JPEG checks, bcrypt, HMAC, SHA-256 and Go's JSON: a rendered variant is the variant and the file it came from, a hash that the table or the worker holds for a photo is not the hash of another upload of it, and checking a password is comparing it.
- Staging files under incoming/ in the upload machine: a staged file is in the memory of the request or job until its rename.
- Two uploads of the same photo at once: the machine has one ingest per photo at a time.
- The order of the worker's queue and of map iteration: any order.
- A removal that fails halfway: it leaves the directory or takes it away.
- MkdirAll and RemoveAll are one step each, and in `IdleWorker` so are a failed Derive and the check whether the photo is gone; the album directories themselves are in `Gc` only.
- Reading the directory while Walk runs: each entry is looked at in a step of its own, and entries that vanish are skipped.
- Unique slugs of folders: a create that finds none is one of the failures that a healthy server does not have. The order and timestamps of rows are not modelled.
- Collisions of UUIDs: a new photo, album or folder id and a new create key has never been used.
- What the network, a proxy or the server's front door says in the handler's place, and when: anything that is no success.
- Folder requests that overlap: they are taken one at a time, as `Forest.ConcurrentMovesMakeACycle` shows they must be.
- Floating-point rounding in the limiter: exact real arithmetic.
- NFKD, the table of combining marks and lower-casing: parameters, of which the contracts name the few properties they need.
- tonumber(s, 16) accepts more than four hexadecimal digits (spaces, signs, fewer digits): a parameter that is only required to read four digits as their number.
- JSON numbers, null as the value of a field, tables with both list and keyed entries, keys that are not strings, indentation, key order options, custom encoders and the lpeg variant: the parser model answers Beyond for the readable ones. A null in an array is read, as a hole; encoding a table with holes is not modelled.
- The cover photo, the republish marks and the deletion callbacks of a publish run, and folderPaths of the admin listing: they would only add easy members.
- Session signing and expiry: a cookie that cannot be decoded is a new session.
