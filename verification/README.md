# Verified models of guacamole-server and the VPN panel

This project models the parts of the repository where several functions, a loop
or a whole run have to work together, and proves what they are for.

- `rect.dfy`, `raster.dfy`, `surface.dfy`: the display surface that is kept in
  step with a remote copy by a lazily merged dirty rectangle, a bounded queue that
  grows while it is flushed, and immediate copy and fill instructions.
- `health.dfy`, `monitor.dfy`, `acceptance.dfy`, `panel.dfy`, `worker.dfy`: the lease
  protocol between the panel and its endpoint monitors, which results it takes, the
  health state machine behind it, and the reconstruction of its history.
- `onboarding.dfy`, `fencing.dfy`, `reconciler.dfy`: VPN onboarding. Statements of
  passes and administrators are interleaved one by one; tokens and revisions fence
  off passes that have lost their row.
- `list.dfy`, `procmap.dfy`: the process map, a hash index and a global list of
  intrusive elements with back-pointers.
- `conf.dfy`, `conffile.dfy`, `conftext.dfy`: the configuration parser, its chunked
  reader, and what a file means, said of its text.
- `sftp.dfy`: normalisation of SFTP paths and their translation below a root.

Code that changes things step by step is modelled by classes and methods, proved
against functions and invariants; rules and protocols are functions and lemmas.

## What the theorems bring out

- A copy sent at once keeps the client in agreement exactly if every pixel, drawn
  over what the client shows, comes out as itself. For opaque and fully transparent
  pixels on a flushed surface that means: each pixel read is opaque or equals the one
  it replaces (`Surfaces.Copy`). `Surfaces.TransparentCopyDiverges` carries out a copy
  after which client and buffer differ.
- The grammar comment of `conf-parse.c` promises more than the code: a plain value
  also ends at a blank or a quote, '-' is not a character of names, and the loop over
  a quoted value never looks at the last character of the buffer. The model follows
  the code; the streaming theorem holds nevertheless.
- `guac_common_surface_blend_component` multiplies by 255 - alpha without dividing by
  255, so a partly transparent pixel over a visible one comes out far too bright, mostly
  saturated (`Raster.PutPixelMeaning`). The model follows the code.
- `GUACD_PROC_MAP_BUCKETS` is not parenthesised, so only even buckets are used
  (`ProcMap.Bucket`).
- A failed VPN is left alone until the administrator acts only if no reconciler
  claims it on the strength of an older look at the row (`Fencing.LeftAlone`,
  `Fencing.StaleClaimSucceeds`, `Fencing.FailureIsForgotten`).
- A draft whose generation has failed keeps the phase `generating` and its owner; if
  it is then deleted, the next pass onboards it again instead of cleaning up
  (`Reconciler.DeletionHonoured`, `Reconciler.DeletionForgotten`). No crash and no
  race is needed.
- An edit does not withdraw a recorded publication (`Reconciler.EditKeepsPublication`),
  so "publication was recorded" may refer to an earlier revision; an active VPN that is
  deleted and then edited is such a case (`Reconciler.PublicationOutlivesActivity`).

## Assumptions

Lease ids and reconciler tokens are fresh, VPN ids are not reused while leases
remain, and an edit that changes probe fields raises the revision. SQL queries
answer as SQL says; a transaction is atomic. The client performs a copy within one
layer as a simultaneous assignment, and an image replaces the rectangle it is sent
for. Integers of the C code are unbounded here except where
wrap-around is the point (the hash). `QUEUE_SIZE` is any number of at least 2, and
the SFTP limits are symbolic.

## Model

| member | source | states |
|---|---|---|
| `Rects.Extend` | guacamole-server/src/common/rect.c:30-53 | the result contains both rectangles and lies in every rectangle that does |
| `Rects.Constrain` | guacamole-server/src/common/rect.c:55-78 | a point is in the result exactly when it is in both rectangles; the result is empty or inside the bound |
| `Rects.ShiftIntoRange` | guacamole-server/src/common/rect.c:115-165 | one axis after widening: a range that sticks out is shifted back and clamped at the other end only, one that does not is kept |
| `Rects.ExpandToGrid` | guacamole-server/src/common/rect.c:80-172 | a rectangle inside the maximum keeps all its points and stays inside the maximum; each side becomes the next multiple of the cell beyond it, or the whole side of the maximum if that is less |
| `Rects.CutOnce` | guacamole-server/src/common/rect.c:192-266 | a cut happens exactly when a side sticks out of the hole; it removes one such side, strip and rest split the points, and the strip avoids the hole |
| `Rects.SplitTiles` | guacamole-server/src/common/rect.c:174-266 | repeated splitting stops after at most four cuts; strips and remainder are disjoint, tile the rectangle, the strips avoid the hole and the remainder is the intersection |
| `Rects.IntersectsMeaning` | guacamole-server/src/common/rect.c:174-190 | the three answers as statements about points: apart without touching, inside, or neither; rectangles that only touch count as intersecting |
| `Raster.CombinePixel` | guacamole-server/src/common/surface.c:1171-1189 | one loop position reads a source pixel that no earlier position has overwritten and writes the combination |
| `Raster.CombineRow` | guacamole-server/src/common/surface.c:1169-1195 | a finished row extends the set of pixels that have their final value, and the extremes cover what changed |
| `Raster.CombineBlock` | guacamole-server/src/common/surface.c:981-1224 | the loop leaves every pixel of the block with the value computed from the old pixels only, and the returned rectangle contains every changed pixel |
| `Raster.Transfer` | guacamole-server/src/common/surface.c:1131-1224 | for all sixteen operations and any overlap, the in-place loop equals simultaneous assignment from the old pixels; the returned rectangle lies in the block and contains every change |
| `Raster.Move` | guacamole-server/src/common/surface.c:1131-1224 | the plain copy: every destination pixel gets the old source pixel |
| `Raster.TransferBy` | guacamole-server/src/common/surface.c:1131-1224 | the same for any function on pixels and either direction of the loops |
| `Raster.TransferByCode` | guacamole-server/src/common/surface.c:729-803 | each of the sixteen operations follows, bit by bit, the truth table that its number in the protocol is; alpha is the source's for copies, full for black and white, and otherwise the destination's |
| `Raster.PutPixelMeaning` | guacamole-server/src/common/surface.c:907-965 | drawing a pixel: an image without alpha leaves its colour, opaque; an opaque pixel, or any over a fully transparent one, replaces; a fully transparent one leaves a visible pixel alone; otherwise each component is the smaller of 255 and s + d * (255 - alpha) |
| `Surfaces.Surface.constructor` | guacamole-server/src/common/surface.c:1226-1267 | a new surface is well-formed, nothing is pending and client and buffer agree |
| `Surfaces.Surface.MarkDirty` | guacamole-server/src/common/surface.c:362-378 | pending pixels stay pending, the marked rectangle becomes pending, and the dirty rectangle stays in bounds |
| `Surfaces.Surface.FlushToQueue` | guacamole-server/src/common/surface.c:669-685 | the dirty rectangle moves to the queue: every pending pixel stays pending, earlier entries are untouched, and the queue grows by one within its capacity |
| `Surfaces.Surface.SortQueue` | guacamole-server/src/common/surface.c:1902-1904 | the queue is permuted into the order of the comparison; nothing pending is lost |
| `Surfaces.InsertedOrdered` | guacamole-server/src/common/surface.c:1841-1856 | the comparison orders rectangles from top to bottom, left to right, wide before narrow, consistently enough to sort by |
| `Surfaces.CompareMeaning` | guacamole-server/src/common/surface.c:1841-1856 | the comparison is not positive exactly for rectangles in the order top to bottom, left to right, wide before narrow, flat before high |
| `Surfaces.Surface.SendDirty` | guacamole-server/src/common/surface.c:1643-1833 | the image covers the dirty rectangle and stays in bounds; a lossy format widens it to whole blocks of 16 or 8 or the side of the surface, others send it exactly; the client shows the buffer there afterwards and what it showed elsewhere |
| `Surfaces.Surface.Absorb` | guacamole-server/src/common/surface.c:1918-1931 | a candidate that is clipped away or absorbed stops being pending in the queue only because the dirty rectangle covers it |
| `Surfaces.Surface.Gather` | guacamole-server/src/common/surface.c:1909-1936 | the inner loop keeps every pending pixel pending, takes care of its first candidate and leaves earlier entries alone |
| `Surfaces.Surface.SendGathered` | guacamole-server/src/common/surface.c:1943-1964 | what was dirty has been sent, nothing is dirty, and agreement outside the remaining pending pixels holds |
| `Surfaces.Surface.FlushPending` | guacamole-server/src/common/surface.c:1890-1976 | the loop over the growing queue terminates within capacity with an empty queue and no dirty rectangle; every pixel that was pending lies in an image sent by this flush, and the client equals the buffer |
| `Surfaces.Surface.FlushDeferred` | guacamole-server/src/common/surface.c:704-719 | the dirty rectangle is queued, after a flush if the queue would become full, so that its length stays below the capacity |
| `Surfaces.Surface.Defer` | guacamole-server/src/common/surface.c:1375-1380 | marking a rectangle, with or without queueing the old one first, makes the pixels in it pending and keeps agreement elsewhere |
| `Surfaces.Surface.CombineDecision` | guacamole-server/src/common/surface.c:303-353 | a scratch area defers everything and a clean layer nothing; what lies inside the dirty rectangle, or stays within 64 by 64 pixels together with it, is always combined |
| `Surfaces.Surface.Combine` | guacamole-server/src/common/surface.c:981-1117 | the pixel loops of draw and paint: exactly the visible pixels are combined, and client and buffer still agree outside what was drawn, and outside what changed |
| `Surfaces.Surface.Blit` | guacamole-server/src/common/surface.c:1345-1421 | exactly the visible pixels are combined, and what the client does not show yet is pending |
| `Surfaces.Surface.Draw` | guacamole-server/src/common/surface.c:1345-1385 | pixels inside the clip are drawn over the old ones, component by component as the source computes it, all others stay; agreement is kept although only changed pixels become pending |
| `Surfaces.Surface.Paint` | guacamole-server/src/common/surface.c:1387-1421 | pixels inside the clip where the mask is not clear take the colour, all others stay; agreement is kept |
| `Surfaces.Surface.Set` | guacamole-server/src/common/surface.c:1556-1604 | pixels inside the clip take the colour; agreement is kept both for deferred fills and for fills sent at once |
| `Surfaces.Surface.AddClip` | guacamole-server/src/common/surface.c:1606-1623 | the new clip is the intersection with the old one |
| `Surfaces.Surface.ResetClip` | guacamole-server/src/common/surface.c:1625-1629 | drawing may reach the whole surface again |
| `Surfaces.Surface.Flush` | guacamole-server/src/common/surface.c:1978-1990 | afterwards the client shows the backing buffer exactly and nothing is pending |
| `Surfaces.CopyTargetMeaning` | guacamole-server/src/common/surface.c:1435-1450 | a pixel is written exactly when it is inside the clip and the pixel it is read from is inside the source block and the source surface |
| `Surfaces.CopyNow` | guacamole-server/src/common/surface.c:1469-1481 | a copy inside one surface that is sent at once leaves client and buffer equal exactly if every pixel is reproduced over the old picture |
| `Surfaces.CopyBlockWithin` | guacamole-server/src/common/surface.c:1463-1481 | a copy inside one surface is a simultaneous assignment; it agrees exactly if it was deferred or every pixel is reproduced over the old picture |
| `Surfaces.PublishCopy` | guacamole-server/src/common/surface.c:1469-1477 | the immediate copy between surfaces agrees exactly if every pixel is reproduced over what the client shows after the flush: the images of that flush over its old picture |
| `Surfaces.CopyBlockAcross` | guacamole-server/src/common/surface.c:1455-1477 | a copy between surfaces assigns the source pixels; it agrees exactly if the instruction, if any, reproduces every pixel, although the buffer changes before the flush |
| `Surfaces.PlainCopies` | guacamole-server/src/common/surface.c:1472-1476 | for opaque and fully transparent pixels, reproducing every pixel means that each is opaque or equals the one it replaces |
| `Surfaces.Copy` | guacamole-server/src/common/surface.c:1423-1489 | the pixels written and their values, in either setting; agreement afterwards if and only if the instruction reproduces every pixel; always for opaque pixels and for a destination that is still server-side only; and, for opaque or clear pixels on a flushed destination, if and only if each pixel read is opaque or equals the one it replaces |
| `Surfaces.IsOpaque` | guacamole-server/src/common/surface.c:250-281 | true exactly when every pixel of the rectangle is opaque |
| `Surfaces.PerformCopy` | guacamole-server/src/common/surface.c:1423-1489 | a copy is performed exactly when the pixels it reads after clipping at both ends are opaque or the client does not see the destination; a refused copy changes nothing |
| `Surfaces.Run` | guacamole-server/src/common/surface.c:1345-1990 | whole runs of draw, paint, set, clip, copy and flush over two surfaces: agreement throughout, and equality of client and buffer after the final flush; a run stops early only at a copy of a pixel that is not opaque into a layer that the client sees |
| `Surfaces.TransparentCopyDiverges` | guacamole-server/src/common/surface.c:1423-1489 | the opacity condition is needed: on a surface of any size, copying any transparent pixel over any opaque one leaves client and buffer in disagreement |
| `EndpointHealth.TrailingFailuresMeaning` | panel-app/vpn_endpoint_health.py:471-497 | the trailing run is at least n exactly when the last n results are complete failures for one target |
| `EndpointHealth.HealthRefinesHistory` | panel-app/vpn_endpoint_health.py:455-497 | over every history of stored results the counter is the capped trailing run of failures and the state is unreachable exactly from three on |
| `EndpointHealth.AlertMeaning` | panel-app/vpn_endpoint_health.py:599-617 | an alert is shown exactly when the three latest results failed for one target and the last is not stale |
| `EndpointHealth.TransitionsChain` | panel-app/vpn_endpoint_health.py:530-541 | recorded transitions are in order of time, each changes the state, each starts where the one before ended, the first at accessible, and the last ends with the state the machine has |
| `EndpointHealth.LookupIsStateAt` | panel-app/vpn_endpoint_health.py:628-665 | the events of a window and the current state determine the state the machine had at each instant of the window, also after older events have been purged |
| `EndpointHealth.HistoryIntervals` | panel-app/vpn_endpoint_health.py:640-665 | the intervals are non-empty, contiguous, tile the window exactly, and each shows the state read off the events at every instant in it, with the evidence of the event that began it or of the current row |
| `MonitorProtocol.StoredMovesForward` | panel-app/vpn_endpoint_health.py:455-469 | a checked result is stored only if it moves (generation, cycle) strictly forward, to the current lease |
| `MonitorProtocol.ApplyKeepsInv` | panel-app/vpn_endpoint_health.py:454-545 | storing a result keeps the invariant: no row is ahead of its lease, and equal pairs mean equal lease ids |
| `MonitorProtocol.IssueKeepsInv` | panel-app/app.py:599-604 | issuing a lease keeps the invariant |
| `MonitorProtocol.EditKeepsInv` | panel-app/app.py:1150-1150 | adding, editing, deactivating and removing VPNs keep the invariant |
| `MonitorProtocol.StepKeepsInv` | panel-app/app.py:587-680 | every step keeps the invariant, never changes what an issued lease id stands for, and moves rows only forward |
| `MonitorProtocol.RunInv` | panel-app/app.py:587-680 | the invariant holds in every reachable state |
| `MonitorProtocol.RunMovesForward` | panel-app/app.py:587-680 | along any run a health row never moves back |
| `MonitorProtocol.EachLeaseCountsOnce` | panel-app/app.py:594-680 | over every interleaving of fetches, edits and repeated, late or reordered posts, two changes of health rows, in one step or in two, are never made under the same lease |
| `MonitorProtocol.SupersededChangesNothing` | panel-app/app.py:639-680 | a batch with one superseded lease or generation is refused as a whole and changes nothing |
| `MonitorProtocol.AlertsAreEarned` | panel-app/vpn_endpoint_health.py:599-617 | in every reachable state an alert means three complete failures in a row, the last of them fresh |
| `MonitorProtocol.NoEventMissing` | panel-app/vpn_endpoint_health.py:434-435 | in every reachable state the stored events of a window of at most five hours are all transitions there were in it |
| `MonitorProtocol.PurgedIsOld` | panel-app/vpn_endpoint_health.py:434-435 | of a VPN with one target, the stored events are its latest transitions, and those that were purged are more than five hours older than the latest observation |
| `MonitorProtocol.OldEventsGo` | panel-app/vpn_endpoint_health.py:434-541 | after a result is stored no event more than five hours older than it is left, and none that is younger is gone |
| `MonitorPanel.Panel.PurgeEvents` | panel-app/vpn_endpoint_health.py:434-435 | exactly the events before the cutoff are dropped, in order |
| `MonitorPanel.Panel.StoreResult` | panel-app/vpn_endpoint_health.py:499-541 | the row, event and purge writes of a stored result amount to one protocol update |
| `MonitorPanel.Panel.ApplyProbeResult` | panel-app/vpn_endpoint_health.py:454-545 | one protocol update, or none with the code of the refusal |
| `MonitorPanel.Panel.IssuePage` | panel-app/app.py:597-608 | each row of the page gets its next lease, or after a row without a target the whole page is rolled back |
| `MonitorPanel.Panel.MonitorTargets` | panel-app/app.py:587-615 | one protocol step or none; the cursor is given exactly for a full page and is its last id; the invariant is kept |
| `MonitorPanel.Panel.HasDuplicates` | panel-app/app.py:636-637 | true exactly when a VPN id occurs twice |
| `MonitorPanel.Panel.CheckBatch` | panel-app/app.py:647-669 | the loop answers as the checks of the whole batch against the tables, with the first refusal |
| `MonitorPanel.Panel.ApplyBatch` | panel-app/app.py:670-679 | all results are stored, or a refusal leaves the tables as they were |
| `MonitorPanel.Panel.MonitorResults` | panel-app/app.py:619-680 | a batch is one step of the protocol or changes nothing: it is accepted exactly when `Accept` is, on the condition that `MonitorAcceptance.AcceptedExactly` gives |
| `MonitorAcceptance.AcceptedExactly` | panel-app/app.py:619-680 | in every reachable state a batch is accepted if and only if it has at most 500 results for distinct VPNs and each is for an active VPN, under the lease and generation in force, for its current revision and probe, and not older than a stored observation of the same target made under another lease |
| `MonitorAcceptance.AcceptedEffect` | panel-app/vpn_endpoint_health.py:454-541 | after an accepted batch each of its VPNs has a row with the evidence, time and lease of its result, unless that lease was in the row already, which is then unchanged; rows of other VPNs, VPNs and leases are unchanged |
| `MonitorAcceptance.RepeatedChangesNothing` | panel-app/vpn_endpoint_health.py:464-465 | a batch that is posted again is accepted and changes nothing at all |
| `MonitorAcceptance.RefusedBecause` | panel-app/app.py:632-679 | the code of a refused batch: its size, a repeated VPN, an inactive one, the objection to the first result that has one, or an older observation |
| `MonitorAcceptance.PassesExactly` | panel-app/vpn_endpoint_health.py:454-469 | one checked result is stored, recognised as a repetition, or refused as stale, each on its exact condition |
| `MonitorAcceptance.ApplyAllExactly` | panel-app/app.py:670-670 | a batch for distinct VPNs goes through exactly when each of its results would go through alone |
| `MonitorAcceptance.FetchEffect` | panel-app/app.py:594-609 | a fetch gives each VPN of the page the next cycle of its generation, or the first of a new one, and no other VPN a lease |
| `MonitorAcceptance.FreshResultIsAcceptable` | panel-app/app.py:594-680 | a result for a target that has just been fetched is acceptable, unless it was observed before the one stored last |
| `MonitorPanel.Panel.ShowHistory` | panel-app/vpn_endpoint_health.py:620-665 | windows of up to 720 hours are tiled exactly; for a VPN whose target did not change, every instant of the last five hours shows the state the machine then had |
| `MonitorWorker.FetchTargets` | panel-app/vpn_endpoint_monitor.py:1527-1552 | fetching ends; ids are strictly ascending; every VPN active in all tables met is fetched although others come and go between pages; it gives up only after the last request that the cycle limit allows |
| `MonitorWorker.PageContinues` | panel-app/app.py:590-615 | a page answered from a changed table keeps the covered prefix covered |
| `MonitorWorker.ResultBatches` | panel-app/vpn_endpoint_monitor.py:1607-1623 | batches concatenate to the results in order, each is non-empty and respects both limits, and none is closed while the next result would fit; splitting fails exactly when one result alone is too large |
| `MonitorWorker.AddResult` | panel-app/vpn_endpoint_monitor.py:1610-1620 | one result goes into the open batch, or closes it and opens the next, or is too large on its own |
| `MonitorWorker.SizeOfBody` | panel-app/vpn_endpoint_monitor.py:1607-1623 | the size compared with the limit is the length of the request body |
| `SftpPaths.ReduceLeaves` | guacamole-server/src/common-ssh/sftp.c:58-92 | the stack holds plain names only, within the depth, with no more characters than were consumed |
| `SftpPaths.NormalizeIsNormal` | guacamole-server/src/common-ssh/sftp.c:37-103 | a normalised path has no empty, "." or ".." component and no separator in a name, is no longer than its source and is normalised to itself |
| `SftpPaths.OneMoreComponent` | guacamole-server/src/common-ssh/sftp.c:58-92 | a path and one more component: a name is added where the depth allows and is refused otherwise, ".." leads to the parent, "." and nothing change nothing |
| `SftpPaths.FirstComponent` | guacamole-server/src/common-ssh/sftp.c:58-92 | paths of one component: "..", "." and nothing at the root stay there |
| `SftpPaths.ThereAndBack` | guacamole-server/src/common-ssh/sftp.c:70-79 | going into a directory and back out leads to where one was |
| `SftpPaths.NormalizeFails` | guacamole-server/src/common-ssh/sftp.c:37-92 | normalisation fails exactly for an empty or relative path, one that is too long, and one in which at some point more directories are open than allowed |
| `SftpPaths.NoBackslash` | guacamole-server/src/common-ssh/sftp.c:95-101 | a normalised path contains no backslash |
| `SftpPaths.TranslationStaysBelowRoot` | guacamole-server/src/common-ssh/sftp.c:708-721 | the components of a translated name are the components of the root followed by those of the normalised name |
| `SftpPaths.TranslationSucceeds` | guacamole-server/src/common-ssh/sftp.c:708-721 | a name is translated exactly if it can be normalised and the path joined to the root, separator included, fits; the result is that path |
| `SftpPaths.AppendBelow` | guacamole-server/src/common-ssh/sftp.c:255-285 | appending joins component lists, without truncation whenever it reports success |
| `SftpPaths.EndPiece` | guacamole-server/src/common-ssh/sftp.c:61-90 | ending a component in the scratch buffer performs one step of the stack, or fails exactly when the stack is full; what a step means for paths is `SftpPaths.OneMoreComponent` |
| `SftpPaths.ReduceComponents` | guacamole-server/src/common-ssh/sftp.c:58-92 | the loop succeeds exactly when the reduction does, and leaves each kept name where the stack points |
| `SftpPaths.JoinNames` | guacamole-server/src/common-ssh/sftp.c:95-101 | joining the kept components writes them all when they fit |
| `SftpPaths.NormalizePath` | guacamole-server/src/common-ssh/sftp.c:37-103 | the in-place loop succeeds exactly when the stack reduction does and writes that path, of which the laws `SftpPaths.OneMoreComponent` to `SftpPaths.NormalizeFails` hold |
| `SftpPaths.AppendPath` | guacamole-server/src/common-ssh/sftp.c:255-285 | the copy loops compute the appended path or fail exactly when it does not fit |
| `SftpPaths.TranslateName` | guacamole-server/src/common-ssh/sftp.c:708-721 | translation of a stream name below the root of the file system object |
| `ConfGrammar.LineLocal` | guacamole-server/src/guacd/conf-parse.c:483-512 | an attempt that succeeds gives the same result in every buffer that starts with the same line |
| `ConfGrammar.DeclarationLocal` | guacamole-server/src/guacd/conf-parse.c:380-397 | a declaration depends only on the characters up to its line end |
| `ConfGrammar.ValueLocal` | guacamole-server/src/guacd/conf-parse.c:136-249 | so does a plain or quoted value |
| `ConfFile.SettingIsRepeated` | guacamole-server/src/guacd/conf-parse.c:256-328 | a setting reported for part of a line is reported again, for the same parameter, for the whole line |
| `ConfFile.AttemptIsAbsorbed` | guacamole-server/src/guacd/conf-file.c:125-172 | a failed attempt on part of a line leaves a state from which the whole line has the same outcome |
| `ConfFile.AttemptKeepsOutcome` | guacamole-server/src/guacd/conf-file.c:125-172 | nor does it change what the rest of the file amounts to |
| `ConfFile.LineKeepsOutcome` | guacamole-server/src/guacd/conf-file.c:143-148 | taking a complete line off the buffer leaves the outcome of the file as it was |
| `ConfFile.FullBufferDecides` | guacamole-server/src/guacd/conf-file.c:125-172 | a full buffer that does not parse means an error in the file or a line that does not fit |
| `ConfFile.ReadQuoted` | guacamole-server/src/guacd/conf-parse.c:183-249 | the loop over a quoted value computes its unescaped text and end |
| `ConfFile.ReadHead` | guacamole-server/src/guacd/conf-parse.c:256-310 | name, equals sign and blanks are read as the grammar says |
| `ConfFile.Reader.Callback` | guacamole-server/src/guacd/conf-file.c:44-123 | whether a setting is taken and the configuration then; which parameter sets which field is stated by `ConfText.FileMeaning` and the lemmas on single parameters |
| `ConfFile.Reader.ReadParameter` | guacamole-server/src/guacd/conf-parse.c:256-328 | effects and position of a parameter |
| `ConfFile.Reader.ReadSection` | guacamole-server/src/guacd/conf-parse.c:335-373 | effects and position of a section header |
| `ConfFile.Reader.ReadDeclaration` | guacamole-server/src/guacd/conf-parse.c:380-397 | effects and position of a section header, a parameter or nothing |
| `ConfFile.ReadLineEnd` | guacamole-server/src/guacd/conf-parse.c:444-476 | blanks, comment and one end-of-line character are read as the grammar says |
| `ConfFile.Reader.ReadLine` | guacamole-server/src/guacd/conf-parse.c:483-512 | effects and position of a line, successful or not |
| `ConfFile.Reader.ReadLines` | guacamole-server/src/guacd/conf-file.c:143-148 | the inner loop takes lines off the buffer without changing the outcome of the file |
| `ConfFile.Reader.ParseBuffer` | guacamole-server/src/guacd/conf-file.c:139-153 | parsing what has arrived and moving the unread part to the front keeps the outcome of the file |
| `ConfFile.Reader.ReadChunk` | guacamole-server/src/guacd/conf-file.c:138-153 | so does one read of any size followed by that |
| `ConfFile.Reader.ParseFile` | guacamole-server/src/guacd/conf-file.c:125-172 | for every way of chunking, reading succeeds exactly when the file parses as a whole and every line fits the buffer, and then gives the same configuration, the one that `ConfText.FileMeaning` describes |
| `ConfText.EscapeRoundTrip` | guacamole-server/src/guacd/conf-parse.c:183-249 | every text can be written between quotes and is read back as it was |
| `ConfText.QuotedIsRead` | guacamole-server/src/guacd/conf-parse.c:183-249 | a quoted text is read as its unescaped value |
| `ConfText.LineIsRead` | guacamole-server/src/guacd/conf-parse.c:483-512 | every line of the grammar, with any blanks, comment, quoting and ending, is read to its end with the effect it declares |
| `ConfText.ReadIsLine` | guacamole-server/src/guacd/conf-parse.c:483-512 | conversely, whatever the parser reads successfully was such a line, with that effect |
| `ConfText.FileIsRead` | guacamole-server/src/guacd/conf-file.c:125-172 | a file of such lines gives the configuration of its settings in order, provided that each parameter is in a section and taken |
| `ConfText.ReadIsFile` | guacamole-server/src/guacd/conf-file.c:125-172 | conversely, a file that is read successfully is a sequence of such lines |
| `ConfText.KnownParameters` | guacamole-server/src/guacd/conf-file.c:44-123 | exactly the six parameters of the three sections are taken, log levels only by one of their five names and SSL parameters only with SSL |
| `ConfText.LastValueCounts` | guacamole-server/src/guacd/conf-file.c:44-123 | after a sequence of settings each field holds the last value given for its parameter, or what it held before |
| `ConfText.FileMeaning` | guacamole-server/src/guacd/conf-file.c:125-172 | so does each field after a file of such lines has been read |
| `ConfText.ServerParameters` | guacamole-server/src/guacd/conf-file.c:52-64 | a file of the header `[server]` and a line setting `bind_host` or `bind_port`, plain or quoted, sets that field to the value and no other |
| `ConfText.DaemonParameters` | guacamole-server/src/guacd/conf-file.c:71-92 | the same for `pid_file` and `log_level`, with the level of each of the five names |
| `ConfText.SslParameters` | guacamole-server/src/guacd/conf-file.c:99-112 | the same for `server_certificate` and `server_key`, and a refusal without SSL |
| `IntrusiveList.List.constructor` | guacamole-server/src/common/list.c:28-37 | a new list is empty |
| `IntrusiveList.List.Add` | guacamole-server/src/common/list.c:61-79 | the new element comes first and every back-pointer is the slot before its element |
| `IntrusiveList.List.Remove` | guacamole-server/src/common/list.c:81-92 | writing through the back-pointer removes exactly that element, wherever it is, and keeps all other back-pointers |
| `IntrusiveList.BackPointersDesignate` | guacamole-server/src/common/list.c:61-92 | the back-pointer of every element designates the slot that points to it |
| `ProcMap.Hash` | guacamole-server/src/guacd/proc-map.c:58-69 | wrapping at every character gives the id read as a numeral in base 65599, modulo 2^32 |
| `ProcMap.Bucket` | guacamole-server/src/guacd/proc-map.c:86-92 | the unparenthesised macro sends every id to an even bucket below 131072 |
| `ProcMap.Find` | guacamole-server/src/guacd/proc-map.c:111-129 | the first element with the id, or null when there is none |
| `ProcMap.Map.constructor` | guacamole-server/src/guacd/proc-map.c:131-149 | a new map is empty |
| `ProcMap.Added` | guacamole-server/src/guacd/proc-map.c:151-182 | a new element at the front of its bucket and of the global list keeps the one-to-one correspondence of ids, bucket elements and list elements |
| `ProcMap.Removed` | guacamole-server/src/guacd/proc-map.c:208-240 | so does removing the two elements of an id |
| `ProcMap.Map.Locate` | guacamole-server/src/guacd/proc-map.c:111-129 | searching one bucket finds the element of the id exactly when the id is mapped |
| `ProcMap.Map.Add` | guacamole-server/src/guacd/proc-map.c:151-182 | an unmapped id is added to map and list, status 0; for a mapped id nothing changes, status 1; no other bucket is touched |
| `ProcMap.Map.Retrieve` | guacamole-server/src/guacd/proc-map.c:184-206 | the mapped process, or null |
| `ProcMap.Map.Remove` | guacamole-server/src/guacd/proc-map.c:208-240 | the mapped process leaves the map and, once, the list; for an unmapped id nothing changes |
| `ProcMap.Map.Foreach` | guacamole-server/src/guacd/proc-map.c:242-256 | the callback gets the members of the global list in order |
| `ProcMap.EachMappedProcessOnce` | guacamole-server/src/guacd/proc-map.c:151-256 | the global list holds each mapped process exactly once and nothing else |
| `ProcMap.BackPointersHold` | guacamole-server/src/guacd/proc-map.c:151-240 | both elements of a mapped id are designated by the slots that point to them |
| `ProcMap.Run` | guacamole-server/src/guacd/proc-map.c:151-240 | every sequence of add, retrieve and remove is answered as a finite map would answer it, and ends with its contents |
| `Onboarding.DelaysGrow` | panel-app/vpn_onboarding.py:57-59 | a delay exists exactly for the retryable codes: 60 and 300 seconds, then 900, and from the fourth retry on 1800 except for the three target codes |
| `Onboarding.ClassificationMeaning` | panel-app/vpn_validation.py:37-58 | online exactly when every gate of the VPN kind is open; not to be retried exactly on rejected credentials or proposals; otherwise transient with a retryable code |
| `Onboarding.EvidenceCodes` | panel-app/vpn_validation.py:37-58 | each of the fifteen results of the classification, by exactly the gates that lead to it |
| `Onboarding.StoredIsPickedUp` | panel-app/vpn_onboarding.py:61-78 | a transient result is picked up again exactly from its scheduled delay on, a failure or an activation never; the stored state and code, the retry counter and the next retry of every kind of result |
| `Onboarding.LockIsRespected` | panel-app/vpn_reconciler.py:217-221 | only an inactive row of the revision that was read can be claimed; the next claim is refused for 300 seconds and succeeds then, or once the lock is released |
| `Onboarding.WhoChanges` | panel-app/vpn_reconciler.py:217-283 | which statements can change which columns of which row: settings, certificate, revision, auto-activation, state, baseline, publication, artifacts and lock |
| `Onboarding.PhaseEffect` | panel-app/vpn_reconciler.py:223-227 | a phase statement sets the phase and the columns named with it, and keeps the others |
| `Onboarding.InsertEffect` | panel-app/app.py:1153-1157 | a new VPN is a draft that waits for its first pass, or active from the start |
| `Onboarding.PinStartsOver` | panel-app/vpn_reconciler.py:263-264 | after a pin the VPN is a draft without artifacts, baseline or publication, due at once, with the certificate trusted |
| `Onboarding.OnlyErasureRemoves` | panel-app/vpn_reconciler.py:283-284 | a row disappears only while it is marked for deletion, by the pass that holds it |
| `Onboarding.AdministratorIsHeard` | panel-app/app.py:953-1278 | what the administrator asks for (activation, deletion, a new draft, a reset) is taken up by the next pass |
| `Fencing.FencedOut` | panel-app/vpn_reconciler.py:217-227 | after an edit, delete, activation or later claim of a row, no statement of the earlier pass changes the table, in any interleaving |
| `Fencing.PinOrEraseIsLast` | panel-app/vpn_reconciler.py:263-283 | after its certificate pin or row delete a pass changes nothing but its lock |
| `Fencing.OnlyLatestClaimHolds` | panel-app/vpn_reconciler.py:217-220 | a token that is in a row was claimed for that row, and nothing has taken the row over since |
| `Fencing.LifecycleHolds` | panel-app/app.py:953-1278 | over every run of panel and reconciler statements active = 1 exactly when the state is active or online |
| `Fencing.OnlyStoreActivates` | panel-app/vpn_onboarding.py:71-75 | an existing row becomes active only by a stored active or online result |
| `Fencing.LeftAlone` | panel-app/vpn_reconciler.py:339-345 | a failed or activated VPN keeps its row, lock aside, until the administrator acts, if every later claim was selected after the result was stored |
| `Fencing.StaleClaimSucceeds` | panel-app/vpn_reconciler.py:217-220 | without that proviso: any inactive row with a free lock can be claimed and put back to work, whatever its state |
| `Fencing.FailureIsForgotten` | panel-app/vpn_reconciler.py:339-356 | a run of two reconcilers in which a failed draft is taken up again without the administrator |
| `Reconciler.VerdictMeaning` | panel-app/vpn_reconciler.py:268-338 | the verdict of a pass is an active VPN exactly when activation is justified; every stored result is transient, a failure or a success; the row is erased exactly for a deletion with clean-up done |
| `Reconciler.PinnedExactly` | panel-app/vpn_reconciler.py:243-267 | a pass pins a certificate if and only if artifacts, validation, inventories and runtime are in order, the container or its daemon is not running, the VPN is an SSL one without a stored certificate, exactly one digest was shown, the administrator agreed, and sealing and clean-up succeeded |
| `Reconciler.ArtifactCodes` | panel-app/vpn_reconciler.py:270-301 | each objection to artifacts, and a failed clean-up, on its exact condition |
| `Reconciler.ValidationCodes` | panel-app/vpn_reconciler.py:302-312 | invalid configuration and a missing or unreadable inventory, each on its exact condition; the pass stores nothing exactly if static validation raises |
| `Reconciler.RuntimeCodes` | panel-app/vpn_reconciler.py:313-323 | a container that this draft did not make for this revision, and a failed start, each on its exact condition |
| `Reconciler.IsolationCode` | panel-app/vpn_reconciler.py:304-328 | a changed unrelated VPN blocks the pass exactly if it is noticed before, while starting or after the gates |
| `Reconciler.CertificateCodes` | panel-app/vpn_reconciler.py:249-266 | each of the five objections to a certificate on its exact condition |
| `Reconciler.TrustedCertificateIsIgnored` | panel-app/vpn_reconciler.py:249-255 | digests that all equal the stored certificate change nothing |
| `Reconciler.EvidenceIsStored` | panel-app/vpn_reconciler.py:326-337 | where no certificate shows and activation is not due, the classified evidence is the result |
| `Reconciler.ProbeCode` | panel-app/vpn_reconciler.py:326-338 | a failed probe is stored exactly where an exception leaves the guarded part |
| `Reconciler.ActivationCodes` | panel-app/vpn_reconciler.py:332-336 | each outcome of the activation check on its exact condition |
| `Reconciler.AutoActivateStands` | panel-app/vpn_onboarding.py:67-77 | while the token of a pass is in the row, nobody has changed auto_activate under it |
| `Reconciler.Database.Write` | panel-app/vpn_reconciler.py:223-227 | a fenced statement under interference: the pass stays sound, and left alone the row is as the statement says |
| `Reconciler.Database.Settle` | panel-app/vpn_onboarding.py:61-78 | SELECT and fenced UPDATE under interference: never an unjustified activation, and left alone the row is as stored |
| `Reconciler.Generate` | panel-app/vpn_reconciler.py:287-299 | a draft gets artifacts, owner and manifest recorded, or the objection is stored |
| `Reconciler.CleanUp` | panel-app/vpn_reconciler.py:277-286 | the row is erased, or kept as blocked |
| `Reconciler.SecureArtifacts` | panel-app/vpn_reconciler.py:269-301 | goes on only with artifacts that are demonstrably this draft's |
| `Reconciler.Validate` | panel-app/vpn_reconciler.py:302-313 | goes on only after static validation, with the unrelated VPNs as recorded |
| `Reconciler.CheckIsolation` | panel-app/vpn_reconciler.py:304-313 | the first inventory becomes the durable baseline, a later one must equal it |
| `Reconciler.Start` | panel-app/vpn_reconciler.py:313-325 | goes on only with a container of this slug, owner, revision and image, started without disturbing an unrelated VPN, with the phase that says so |
| `Reconciler.HandleCertificate` | panel-app/vpn_reconciler.py:243-267 | an online result passes unchanged; a certificate is pinned, which needs everything that `Reconciler.PinnedExactly` lists, or objected to or ignored as the verdict says |
| `Reconciler.Promote` | panel-app/vpn_reconciler.py:332-336 | the activation check, recorded as published only when it passes; skipped where publication was recorded before |
| `Reconciler.Conclude` | panel-app/vpn_reconciler.py:332-337 | activation where it is due, and the stored result |
| `Reconciler.Gates` | panel-app/vpn_reconciler.py:326-337 | the evidence, the second inventory, the certificate and the activation, as one verdict |
| `Reconciler.PassGates` | panel-app/vpn_reconciler.py:326-338 | the guarded block with its handler ends as its verdict says |
| `Reconciler.CarryOut` | panel-app/vpn_reconciler.py:268-338 | the parts of a pass in order end the row as the verdict says |
| `Reconciler.ProcessVpn` | panel-app/vpn_reconciler.py:268-338 | under any interference every statement of the pass is warranted: it makes the row active only if static validation passed, both inventories equalled the baseline, every gate was open, auto-activation was on and the activation check passed or had been recorded; it pins only with consent; left alone it ends the row as the verdict says and activates exactly then, with everything on record |
| `Reconciler.MakeClaim` | panel-app/vpn_reconciler.py:217-220 | a claim succeeds only on a row that it matches, and does so when left alone; it hands out the row as it is after the update, and the pass starts out sound |
| `Reconciler.GiveUp` | panel-app/vpn_reconciler.py:221-221 | after the release the row does not hold the token |
| `Reconciler.ReconcileRow` | panel-app/vpn_reconciler.py:340-357 | a row that is not due is left alone; one that is due and can be claimed is, and claim, pass and release keep the pass sound |
| `Reconciler.LogIsRun` | panel-app/vpn_reconciler.py:268-338 | the statements of a pass with all interference form a run to which the fencing theorems apply |
| `Reconciler.PassConcludes` | panel-app/vpn_reconciler.py:268-338 | after a conclusive result has taken effect the pass issues nothing but its release |
| `Reconciler.ActivationIsJustified` | panel-app/vpn_reconciler.py:326-338 | at whatever point of the run a statement of the pass turns the row active, activation was justified by what that pass found out |
| `Reconciler.DeletionHonoured` | panel-app/vpn_reconciler.py:270-286 | a VPN marked for deletion can be activated again exactly when its generation was interrupted under a known owner with auto-activation on and a readable baseline |
| `Reconciler.DeletionForgotten` | panel-app/vpn_reconciler.py:293-296 | such a row arises, without a crash, when a draft whose generation failed is deleted |
| `Reconciler.EditKeepsPublication` | panel-app/app.py:219-219 | an edit of an inactive VPN raises the revision but keeps a recorded publication, so that the next verified pass activates without the activation check |
| `Reconciler.EditEffect` | panel-app/app.py:1150-1150 | what an edit leaves of a row: new settings and certificate, the next revision, a draft without artifacts and without a lock, everything else kept |
| `Reconciler.PublicationOutlivesActivity` | panel-app/app.py:992-992 | such a VPN arises when an active one is marked for deletion |

## Left out

- Image encodings, encoder choice, heat map and frame rate: an image flush replaces its rectangle exactly, and the choice of format is a parameter; alpha lost by JPEG is not modelled.
- Byte strides of pixel buffers: a buffer is a two-dimensional array of pixels.
- Surface resize, duplicate, opacity, position and other properties, and locking: not part of the agreement theorem.
- `guac_common_surface_transfer` between surfaces as a public operation: only its raster loop is modelled.
- How a client blends partly transparent pixels: an arbitrary function.
- Cursors, drawing libraries, the protocol encoder, guacd's sockets, forks and threads: outside the core.
- Locks of the process map and concurrent calls on it, and freeing memory: calls are sequential.
- Read errors of the configuration file, error positions and messages, and settings other than those the callback stores.
- Legacy health rows and schema migration: runs start from tables the current code wrote.
- The columns `last_success_at`, `updated_at`, `latency_ms` and `last_transition_at` of health rows: no claim is made about them.
- JSON, HTTP, authentication and value validation in front of the monitor routes: requests arrive validated.
- Probing itself, and the scraping of docker, DNS and IKE output: evidence and answers are inputs.
- Stage, message, `last_checked_at` and `runtime_image_ref` columns of onboarding rows: written but not modelled.
- Equipment and permission rows deleted with a VPN: they are not covered by the fence.
- The file locks that panel and reconciler take per slug: the safety theorems hold without them, and the counterexamples do not depend on breaking them.
- `apply_vpn` (panel-app/app.py:880-914), which also writes the remote id and the certificate of a row, without a fence: no route calls it.
- Repair of webfix namespaces, web pages, encryption of secrets, imports of profiles: outside the core.
- Raster.CombineBlock: the source counts bytes and rows of two strides; the model indexes pixels.
- Reconciler.ProcessVpn: exceptions raised by docker calls outside the guarded parts end the pass as a crash does; the pass may die before any statement.
- Reconciler.ReconcileRow: one row of the loop; the order in which rows are visited does not matter to the claims.
