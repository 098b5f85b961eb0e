# Hydrozoa archiver and hztop: a verified model

This project models three parts of the repository in Dafny and proves what they promise. `dafny verify dfyconfig.toml` checks all of it.

**The archival protocol** (`hydrozoa-archiver` over `hydrozoa-store`). A node appends to its journals and trims them from below. An archiver looks at them through a secondary whose view moves only when it is told to, copies what is new in batches of 1024, each one durable commit, and reports how far it got so that the node may delete. It keeps no state of its own: it resumes from the last key of the archive. The model has three layers.

- *Bytes*: families, their names and keys, the ordered store, the archive, and the pass itself, written as the source writes it (loops that fill and flush a batch, on a disk that may fail at every read and every commit, or on one that never does). Modules `ByteStrings`, `Decimals`, `Families`, `FamilyNames`, `Journals`, `OrderedStore`, `Stores`, `Pass`, `PassEffects`, `Progress`, `Confluence`.
- *Protocol*: a transition system with one step per append, trim, catch-up, journal start, entry read, batch commit, journal end, pass end, report sent, report delivered (never, late or repeatedly) and stop. `ProtocolSafety` proves its invariant and what follows over every run; `TrailingView` says when a gap can appear at all, `GapsStay` that what lies in one is never archived later; `Interleaving` shows that a pass may be told as if the node had waited for it. Modules `Protocol`, `ProtocolSafety`, `TrailingView`, `GapsStay`, `Interleaving`.
- *Between them*: every pass over bytes, finished or stopped anywhere, is a run of the protocol, so the guarantees hold of the stored bytes over the whole life of a node and its archive, with the node at work while passes run, and of what the main loop sends. `StoredGaps` says exactly which entries the stored bytes lack. Modules `Refinement`, `PassRefinement`, `Guarantees`, `Lifetime`, `StoredGaps`, `LoopLife`, `LoopStory`.

Around the pass stand the main loop with its cadence and its reports (`ArchiverLoop`), the identity stamp and the checks that guard it (`Stamps`, `Provenance`), what an archive keeps over all its restarts (`Restarts`), and the program from start-up to stop (`Archiver`).

**The frontier search** of hztop's poller: the search for the highest block that passes a test, made request by request against a chain that grows between requests. `FrontierSearch` proves what any answers imply, what a moving or a resting frontier implies, and what a search costs; `HeadTracking` follows a head with it, round after round.

**The alert log** of hztop: which alerts are raised (`Alerts`), how transitions are found, capped and drawn (`AlertLog`), and what the readers of the capped log may conclude about everything that ever happened, over evictions, restarts and failed saves (`AlertHistory`, `AlertTimes`, `AlertSession`).

Some promises of the source hold only under a condition, or not at all.

- The comment on `find_last` (`hztop/src/poll.rs:141-144`) gives its cost as the logarithm of the distance from the hint. The step is capped at 4096, so one logarithm for galloping and one for bisecting suffice if and only if the distance is below 24575, six caps less one (`FrontierSearch.CostIsLogUpToSixCaps`, which also gives the exact cost below 8191). Beyond it the cost is linear (`FrontierSearch.CostIsLinear`), and for every factor `FrontierSearch.CostIsNotLogarithmic` names a height at which every search from block 1 costs more than that many times the logarithm. With the chain at rest a caller can tell beforehand, by the distance from the hint to the height (`FrontierSearch.CostAtRest`). The model follows the code.
- The search ends on every chain that grows by fewer than 4096 blocks from one request to the next (`FrontierSearch.SlowChainIsBounded`). On a chain that gains 4096 or more it has no result to give (`FrontierSearch.FastChainIsNeverOutrun`).
- A node that deletes only under the reports it received never makes the archive miss an entry (`ProtocolSafety.NoLoss`), yet a gap may be announced: a secondary trails its primary (`hydrozoa-store/src/lib.rs:112-116`), so a first pass may copy entries the node had already deleted and stop short of its floor. Such a gap lies wholly below the node's floor at the start, and one can appear if and only if some journal's first view trails by more than a first commit holds (`TrailingView.GapsNeedTrailingView`; `TrailingView.SomeViewTrails` gives such a start).
- A gap is never silently skipped (`hydrozoa-archiver/src/pass.rs:30-34`): the pass that finds it logs it before it copies anything (`hydrozoa-archiver/src/pass.rs:119`). But the report of a failed pass is dropped (`hydrozoa-archiver/src/main.rs:91-95`), and a later pass, over that view or one trimmed further, finds the gap again if and only if no row of that journal was committed, whatever stopped the first (`Confluence.GapFoundAgain`; `Confluence.SomeGapIsLost` gives a gap that no report names).
- A family name reads back as its family if and only if the peer id packed into it has its top bit clear (`Families.NameRoundTrip`); `Families.OversizedPeersCollide` gives two families that share a name. Every family opened from disk meets the condition (`Families.ParsedIsNameable`).
- `hydrozoa-store/src/meta.rs:67-70` calls a partial identity stamp an error. For an archive that is so if and only if a version row stands beside it; without one the archive counts as new, whatever fields it has (`Stamps.PartialStampNeedsVersion`, after `hydrozoa-archiver/src/archive.rs:87-92`). So an archive with all four fields of another head and no version row is not refused but stamped over (`Provenance.ForeignStampIsReplaced`). No archive the program made itself gets there (`Provenance.OwnerNeverChanges`).

Hypotheses about what lies outside: a journal index is written once and indices are appended without gaps; successive views of the secondary never go back; a store keeps the identity it is stamped with, and the names the node gives its families; no index reaches the end of its key width.

## Model

| member | source | states |
|---|---|---|
| ByteStrings.BigEndianRoundTrip | hydrozoa-store/src/journal.rs:83-94 | a number written in fixed width reads back |
| ByteStrings.FromBigEndianRoundTrip | hydrozoa-store/src/journal.rs:97-109 | bytes read as a number and written again are the same bytes |
| ByteStrings.BigEndianOrder | hydrozoa-store/src/journal.rs:79-82 | lexicographic order of equal-width encodings is numeric order, both ways |
| Families.WireIntRoundTrip | hydrozoa-store/src/cf.rs:22-36 | packing a peer id into 32 bits is undone by unpacking exactly when its number is below 2^31 |
| Decimals.DecimalRoundTrip | hydrozoa-store/src/cf.rs:131-144 | decimal digits read back as the number printed |
| Families.NameRoundTrip | hydrozoa-store/src/cf.rs:110-152 | parsing a family's name gives the family back if and only if its peer id can be packed |
| Families.NamesAreInjective | hydrozoa-store/src/cf.rs:110-135 | two nameable families never share a name, so never share storage |
| Families.ParsedIsNameable | hydrozoa-store/src/cf.rs:139-152 | whatever family a name parses to can be named again without loss |
| Families.ParsedIsSpelled | hydrozoa-store/src/cf.rs:139-152 | only the fixed names are recognised, and a kind, a colon and digits for the number; everything else is refused |
| Families.SpelledParses | hydrozoa-store/src/cf.rs:143-150 | every such spelling, with a plus sign or leading zeros too, reads as its family |
| Families.OversizedPeersCollide | hydrozoa-store/src/cf.rs:31-36 | a concrete pair of peers beyond the limit whose families share a name |
| Journals.KeyRoundTrip | hydrozoa-store/src/journal.rs:83-109 | an index encodes and decodes back exactly when it fits the family's width; otherwise it is refused, never truncated |
| Journals.DecodedKeyReencodes | hydrozoa-store/src/journal.rs:97-109 | a key that decodes is the encoding of what it decodes to |
| Journals.KeyOrder | hydrozoa-store/src/journal.rs:79-82 | byte order of keys is index order, both ways |
| Journals.UnframedReframes | hydrozoa-store/src/journal.rs:71-76 | a value unframes exactly when it is at least a stamp long, and framing the parts gives the same bytes |
| Journals.FramedUnframes | hydrozoa-store/src/journal.rs:112-115 | a framed entry unframes to its own stamp and payload |
| Journals.PrefixOrderIsStampOrder | hydrozoa-store/src/journal.rs:28-46 | sorting framed values by their 12-byte prefix is sorting by (generation, nanoseconds), both ways |
| OrderedStore.InOrderAscends | hydrozoa-store/src/lib.rs:180-190 | iteration visits keys in ascending order |
| OrderedStore.AscendingIsUnique | hydrozoa-store/src/lib.rs:180-190 | there is only one such order, so the iteration is determined by the keys |
| OrderedStore.CopiedRowsAreUnion | hydrozoa-archiver/src/pass.rs:127-147 | writing the rows from a key on is a union with what the view holds from there |
| OrderedStore.CopiedFamilyIsUnion | hydrozoa-archiver/src/pass.rs:159-185 | copying a family wholesale is a union, the newer value winning |
| OrderedStore.LastIsGreatest | hydrozoa-store/src/lib.rs:146-156 | the last row reached holds the greatest key |
| FamilyNames.KnownIsNameable | hydrozoa-store/src/lib.rs:80-90 | whatever families the names on disk open can be named again without loss |
| FamilyNames.KnownAreDifferent | hydrozoa-store/src/lib.rs:80-90 | names as the node writes them, each once, open no family twice |
| FamilyNames.OpenedAre | hydrozoa-store/src/lib.rs:80-90 | exactly the families whose names are recognised are opened, and exactly the other names but the default one count as unknown |
| FamilyNames.SortedIsRanked | hydrozoa-store/src/lib.rs:91 | the families come in the order of their ranks |
| FamilyNames.FixedRanksRise | hydrozoa-store/src/cf.rs:56-84 | fixed families rank as declared, then the satellites by kind |
| FamilyNames.AuthorRanksRise | hydrozoa-store/src/cf.rs:78-84 | satellites of a kind rank by author, heads before coils |
| FamilyNames.SortedFamilies | hydrozoa-store/src/lib.rs:80-91 | sorting neither loses a family nor repeats one |
| Stores.HeadStore.Open | hydrozoa-store/src/lib.rs:73-107 | from the names listed on disk: exactly the recognised families, sorted, exactly the unrecognised names, and a view that shows of every such family what the primary holds; it fails only with the disk |
| Stores.HeadStore.CatchUp | hydrozoa-store/src/lib.rs:117-121 | the view then shows of every family exactly what the primary holds or, if the disk fails, what it showed |
| Stores.SeekIsFilter | hydrozoa-store/src/lib.rs:197-219 | seeking to an index yields exactly the entries with that index or a higher one |
| Stores.EndsAreExtremes | hydrozoa-store/src/lib.rs:146-172 | the last row gives the highest index of a journal and the first row the lowest |
| Stores.ArchiveStore.Tip | hydrozoa-archiver/src/archive.rs:123-136 | the tip is the last row's index; a family that is no journal has none |
| Stores.ArchiveStore.Commit | hydrozoa-archiver/src/archive.rs:157-163 | a batch is written whole or, if the disk fails and only then, possibly not at all |
| Stores.ArchiveStore.PutRaw | hydrozoa-archiver/src/archive.rs:139-149 | rows are written to one family in one commit, later ones winning; an empty batch writes nothing |
| Pass.DecodedRowReencodes | hydrozoa-archiver/src/pass.rs:127-134 | an entry decoded from a row and encoded again is that very row |
| Pass.CopyMovesTip | hydrozoa-archiver/src/pass.rs:124-150 | wherever a copy stops, the archive's tip is the last index made durable |
| Pass.ArchivedBelowResume | hydrozoa-archiver/src/pass.rs:98-107 | everything archived sorts below the key a copy resumes from |
| Pass.CopyRows | hydrozoa-archiver/src/pass.rs:123-143 | the batching loop leaves a prefix of the rows durable, whole batches or all of them; on success all of them, with their count and last index |
| Pass.CopyJournal | hydrozoa-archiver/src/pass.rs:86-152 | the journal becomes its old rows and the view's rows from the resume point, byte for byte; the watermark is the tip then durable, the count that of the rows, and a gap is announced exactly when the floor lies past the expected index; what other than the disk can stop it |
| Pass.CopyRaw | hydrozoa-archiver/src/pass.rs:165-179 | the same loop for rows that are not decoded |
| Pass.CopyFamily | hydrozoa-archiver/src/pass.rs:159-185 | every row of the view's family is written, in order and in batches |
| Pass.Run | hydrozoa-archiver/src/pass.rs:65-83 | one catch-up, after which the view shows what the primary holds; it fails only if a disk does or something hinders one of its families, and always if something does; on success every family asked for received exactly its rows and the report accounts for them; on failure some families are done, one holds a prefix, the rest are untouched; without `full` only journals change |
| Progress.SoundIsNotHindered | hydrozoa-archiver/src/pass.rs:86-185 | nothing hinders a family that both sides have, if keys have the journal's width and none is its last and values have room for a stamp |
| Progress.EntryIsCopied | hydrozoa-archiver/src/pass.rs:98-150 | a finished pass gives the archive every entry of a journal past its tip, and touches none up to it |
| Progress.FamilyRowIsCopied | hydrozoa-archiver/src/pass.rs:74-80 | a finished full pass gives it every row of the other families, any other pass none |
| Progress.JournalCountIsGain | hydrozoa-archiver/src/pass.rs:145-151 | the count reported for a journal is how many entries the archive gained |
| Progress.FamilyCountIsSize | hydrozoa-archiver/src/pass.rs:180-184 | the count reported for another family is how many rows the view has of it, in full passes only |
| Pass.StoppedLeavesPrefixes | hydrozoa-archiver/src/pass.rs:65-83 | however a pass stops, each family holds what it held and a decodable prefix of its new rows |
| PassEffects.PassMixes | hydrozoa-archiver/src/pass.rs:65-83 | a pass, finished or not, removes nothing and writes nothing its view does not hold |
| Confluence.SeekPastRow | hydrozoa-archiver/src/pass.rs:98-107 | resuming just past an index visits exactly the rows after it |
| Confluence.StopLeavesTheRest | hydrozoa-archiver/src/pass.rs:123-143 | after stopping with some rows durable, what is left to copy is exactly the rest |
| Confluence.InterruptedCopyConverges | hydrozoa-archiver/src/archive.rs:118-122 | stopping and restarting a copy any number of times on one view ends in the archive of an uninterrupted copy |
| Confluence.GapFoundAgain | hydrozoa-archiver/src/main.rs:91-95 | a gap found by a pass that then failed, at a row that does not decode or elsewhere, is found again on the same view or one trimmed further if and only if no row of the journal was committed |
| Confluence.SomeGapIsLost | hydrozoa-archiver/src/pass.rs:111-121 | an archive and a view whose gap a failed pass finds and no later pass does |
| ProtocolSafety.CommitKeepsJournal | hydrozoa-archiver/src/pass.rs:123-143 | a commit extends the archive past any hole, and every hole it leaves was announced |
| ProtocolSafety.StepKeepsInv | hydrozoa-archiver/src/pass.rs:65-152 | every step of node, network and archiver keeps the invariant, whatever the node deletes |
| ProtocolSafety.ReachableInv | hydrozoa-archiver/src/pass.rs:65-152 | the invariant holds in every reachable state |
| ProtocolSafety.StepKeepsGuarded | hydrozoa-archiver/src/watermark.rs:26-34 | a node that deletes only under received reports keeps every deleted entry archived, step by step |
| ProtocolSafety.NoLoss | hydrozoa-archiver/src/pass.rs:65-152 | under that rule, over every interleaving of steps with late, repeated or lost reports and stops, and however far the first view trails, every entry from the node's starting floor on is at the node or archived unchanged, and every gap raised ends at or below that floor |
| ProtocolSafety.NoGapWhenCurrent | hydrozoa-archiver/src/pass.rs:109-121 | a journal whose first view trailed by no more than a first commit never has a gap |
| TrailingView.TrailingViewFindsGap | hydrozoa-store/src/lib.rs:112-116 | from a first view that trails further, some run under that rule raises the gap between the first commit and the floor |
| TrailingView.GapsNeedTrailingView | hydrozoa-archiver/src/pass.rs:92-121 | under that rule a gap can be raised if and only if some first view trails so |
| TrailingView.SomeViewTrails | hydrozoa-archiver/src/pass.rs:92-95 | a concrete start whose first view trails so |
| Interleaving.NodeStepsCommute | hydrozoa-archiver/src/pass.rs:61-64 | a node step and then an archiver step, sending a report included, may be taken in the other order, to the same state |
| Interleaving.NodeMayWait | hydrozoa-archiver/src/pass.rs:61-64 | between two catch-ups, any interleaving of node and archiver ends where the archiver's steps followed by the node's end |
| ProtocolSafety.GapsAreExact | hydrozoa-archiver/src/pass.rs:98-121 | whatever the node deletes, between the archive's first and last index the missing ones are exactly those inside raised gaps, and every copy is the entry as appended |
| ProtocolSafety.LostIsKnown | hydrozoa-archiver/src/pass.rs:30-41 | an appended entry is gone from both sides exactly when the node deleted it and it lies outside the archive's span or in a raised gap |
| ProtocolSafety.WatermarksAreSound | hydrozoa-archiver/src/pass.rs:124-150 | every report ever sent stays at or below the durable tips, reports never fall, and a report about to be sent names exactly the tips |
| ProtocolSafety.FinishedPassHoldsItsView | hydrozoa-archiver/src/pass.rs:61-64 | when a pass finishes the archive holds every entry of its one view, whatever stopped before it |
| Refinement.TipRefines | hydrozoa-archiver/src/archive.rs:123-136 | the index in the archive's last key is the highest copy of the protocol |
| Refinement.ScanRefines | hydrozoa-store/src/lib.rs:197-219 | scanning bytes from a key visits exactly the window's entries from that index |
| Refinement.CopyStartsAlike | hydrozoa-archiver/src/pass.rs:92-107 | the byte-level copy resumes where the protocol does, over the same entries |
| Refinement.GapsAlike | hydrozoa-archiver/src/pass.rs:109-121 | the gap announced over bytes is the gap the protocol raises |
| Refinement.CommitRefines | hydrozoa-archiver/src/pass.rs:138-143 | writing entries as rows stores exactly the copies a protocol commit adds |
| Refinement.CopiesLead | hydrozoa-archiver/src/pass.rs:127-143 | reading and committing batch after batch is a sequence of enabled protocol steps |
| Refinement.CopyRunsProtocol | hydrozoa-archiver/src/pass.rs:86-152 | a journal copy, finished or stopped between commits, is a run of the protocol |
| PassRefinement.JournalRefines | hydrozoa-archiver/src/pass.rs:86-152 | a copy that made some rows durable is a run that committed as many entries, and the bytes are those copies |
| PassRefinement.RestRefines | hydrozoa-archiver/src/pass.rs:69-82 | what follows the catch-up of a successful pass is a run up to the same report, with the same archive, that raises exactly the gaps it found |
| PassRefinement.StoppedRestRefines | hydrozoa-archiver/src/pass.rs:69-82 | what follows the catch-up of a failed pass is a run that stopped there, with the same archive, that raises no gaps but those that stood |
| PassRefinement.PassRefines | hydrozoa-archiver/src/pass.rs:65-83 | a successful pass is a run from its catch-up to its report, with the same archive and the same report |
| PassRefinement.StoppedPassRefines | hydrozoa-archiver/src/pass.rs:65-83 | a failed pass, wherever it failed, is a run that stopped there, with the same archive |
| Guarantees.SafelyStored | hydrozoa-archiver/src/pass.rs:65-152 | in any state reached under the node's rule every deleted entry is stored, byte for byte under its key |
| Guarantees.GapsUnderGuardAreOld | hydrozoa-archiver/src/pass.rs:109-121 | a pass from any such state finds only gaps that end at or below the node's starting floor |
| Guarantees.PassLosesNothing | hydrozoa-archiver/src/pass.rs:65-83 | a successful pass from any such state leaves every deleted entry stored and announces no gap but such ones |
| Guarantees.StoppedPassLosesNothing | hydrozoa-archiver/src/main.rs:91-95 | a failed pass leaves that promise standing |
| Guarantees.FullPassIsOneMoment | hydrozoa-archiver/src/pass.rs:61-80 | after a full pass every family agrees with what the node's store held at the one catch-up, and is unchanged where that held nothing |
| Lifetime.RunPass | hydrozoa-archiver/src/pass.rs:65-83 | the byte-level pass, whatever its result, is a beginning and an end of a pass in the life below, with any node steps between |
| Lifetime.LifeRefines | hydrozoa-archiver/src/main.rs:69-102 | any sequence of node steps and byte-level passes, the node at work also while a pass runs, is a run of the protocol with the same archive and reports |
| Lifetime.LifeLosesNothing | hydrozoa-archiver/src/pass.rs:65-152 | over any such life under the node's rule every entry deleted since the start is stored in the archive's bytes |
| Lifetime.InterleavedLifeLosesNothing | hydrozoa-archiver/src/pass.rs:123-143 | and however node and archiver go on from there, batch by batch, every deleted entry is stored at every moment, as if the archiver had gone first |
| Lifetime.LifeFindsOldGaps | hydrozoa-archiver/src/pass.rs:109-121 | and a pass in it announces only gaps that end at or below the node's starting floor |
| Lifetime.LifeFindsNoGap | hydrozoa-archiver/src/pass.rs:109-121 | none at all, if no first view trailed by more than a first commit |
| Lifetime.LifeReportsHold | hydrozoa-archiver/src/watermark.rs:11-20 | whatever the node deletes, every report sent stays covered by the stored tips and reports never fall |
| GapsStay.RunKeepsSkipped | hydrozoa-archiver/src/pass.rs:30-41 | what lies in a gap once found is not archived by any run after it |
| StoredGaps.LifeGapsAreExact | hydrozoa-archiver/src/pass.rs:98-121 | whatever the node deletes and however many passes fail: between a journal's first and last stored key the missing indices are exactly those in the gaps the passes saw, nothing in those gaps is stored anywhere, and what is stored is as it was appended |
| StoredGaps.ReportedAreSeen | hydrozoa-archiver/src/main.rs:86-95 | every gap reported was seen, and the gaps seen are those reported if no pass failed |
| StoredGaps.ReportsAreExact | hydrozoa-archiver/src/pass.rs:30-41 | if no pass failed, the indices missing between the first and last stored key are exactly those in reported gaps |
| ArchiverLoop.FromPass | hydrozoa-archiver/src/watermark.rs:37-44 | naming the watermarks merges no two families, and every name reads back as the family it stands for |
| ArchiverLoop.PassKeepsTips | hydrozoa-archiver/src/archive.rs:118-122 | a pass, finished or stopped, over any bytes short of the last index, never lowers a journal's tip |
| ArchiverLoop.Archive | hydrozoa-archiver/src/main.rs:68-103 | pass after pass each starting from the archive the last one left, over what the node held at its tick or, if the pass failed, perhaps over the view before; full exactly when none succeeded within the interval; failed passes retried and not reported; a report sent for each finished pass with a watermark |
| ArchiverLoop.ReportsHold | hydrozoa-archiver/src/main.rs:86-95 | over any sequence of passes, in one process or several, every report sent stays backed by the archive and none falls below an earlier one |
| Progress.LoopFinishes | hydrozoa-archiver/src/main.rs:69-102 | on disks that work, over stores whose rows a node could have written, every pass finishes and the archive stays such a store |
| Progress.FirstPassIsFull | hydrozoa-archiver/src/main.rs:68-77 | the first of these passes is full and finishes on what the node then holds |
| LoopLife.LoopLives | hydrozoa-archiver/src/main.rs:69-102 | whatever the node does around them, the passes of the main loop make up such a life, and its archive is theirs |
| LoopLife.LoopSends | hydrozoa-archiver/src/main.rs:74-95 | the reports sent in it are those of the loop's finished passes, in order |
| LoopLife.BodiesNameReports | hydrozoa-archiver/src/watermark.rs:37-44 | the bodies the loop sends say by name exactly what those reports say |
| LoopLife.LoopLosesNothing | hydrozoa-archiver/src/main.rs:69-102 | with a node that deletes only under reports it received, the main loop's archive holds every entry deleted since it began |
| LoopStory.LoopHasStory | hydrozoa-archiver/src/main.rs:69-102 | if the store at every tick is a window of one node, what the loop's passes saw is enough for such a life to exist around them, with every report sent |
| LoopStory.LoopRunLosesNothing | hydrozoa-archiver/src/main.rs:69-102 | so what the main loop did then is a life, its bodies name the reports of that life one by one, and its archive holds every entry deleted since it began |
| Stamps.ReadIsStampable | hydrozoa-store/src/meta.rs:56-63 | an identity read from a store can be stamped again without loss |
| Stamps.StampReadsBack | hydrozoa-archiver/src/archive.rs:95-116 | a stamp reads back as the identity and version it was made from, and touches no other row |
| Stamps.PartialStampNeedsVersion | hydrozoa-archiver/src/archive.rs:73-93 | an archive with a partial stamp is refused if and only if it has a version row; it counts as new exactly without one, whatever fields it has, or with a readable one and no field |
| Provenance.StampOrCheck | hydrozoa-archiver/src/archive.rs:48-70 | success means the archive carries the store's identity; it changes only if it had none, and then to the store's identity and version; it is refused only if the disk fails, the store has no stamp, the archive's stamp is another's or it does not read |
| Provenance.ForeignStampIsReplaced | hydrozoa-archiver/src/archive.rs:87-92 | an archive with another head's four fields and no version row is never refused as foreign, and opening it stamps it over |
| Provenance.Open | hydrozoa-archiver/src/archive.rs:29-45 | accepted or refused, the archive loses no row and gains and rewrites none but the stamp's; for what causes it is refused, and that it is accepted only without any |
| Provenance.OpeningKeepsRow | hydrozoa-archiver/src/archive.rs:29-45 | every row of the archive is there after an opening, the same unless it is the stamp's |
| Provenance.OpeningKeepsFamily | hydrozoa-archiver/src/archive.rs:29-45 | every family is there, and one that is new holds nothing but rows of the stamp |
| Restarts.HistoryKeepsRow | hydrozoa-archiver/src/archive.rs:19-45 | over any openings, accepted or refused, and any passes, finished or failed, no row is lost and no entry of a journal is rewritten |
| Restarts.HistoryKeepsTips | hydrozoa-archiver/src/archive.rs:118-122 | nor is a family lost or does a journal's tip fall |
| Restarts.ReportsSurvive | hydrozoa-archiver/src/watermark.rs:11-20 | a report the archive backs stays backed over every restart |
| Provenance.StartUp | hydrozoa-archiver/src/main.rs:20-63 | only a store that was caught up with, whose metadata reads and whose schema version is 3, gets its archive opened; any refusal has one of these causes, or one of opening, or a failing disk |
| Provenance.MixtureKeepsStamp | hydrozoa-archiver/src/pass.rs:74-80 | rows mixed from two stamps of one identity, however its text is encoded, are a stamp of that identity |
| Provenance.CopyKeepsOwner | hydrozoa-archiver/src/pass.rs:74-80 | a pass, even a full or a stopped one that rewrote part of the stamp, keeps the archive's identity |
| Provenance.OwnerNeverChanges | hydrozoa-archiver/src/archive.rs:19-28 | over any opens against any stores and any passes, the stamp is whole or absent, never changes once there, and no store of another identity is accepted |
| Provenance.RowsComeFromOneOwner | hydrozoa-archiver/src/archive.rs:19-28 | every row of an archive but its stamp was read from a store with the identity it is stamped with |
| Archiver.Start | hydrozoa-archiver/src/main.rs:20-63 | from the names on disk to an archive open for writing, over a view of what the store holds; or why not |
| Archiver.RunArchiver | hydrozoa-archiver/src/main.rs:10-103 | whatever becomes of it, a run of the program on the names found on disk is one more session in that history; it stops at the start only for such a cause; its passes are full when due and read what the node holds, and its reports are those of its finished passes |
| FrontierSearch.StepIsPowerOfTwo | hztop/src/poll.rs:169-173 | the gallop's step is always a power of two, at most 4096 |
| FrontierSearch.ReachClosed | hztop/src/poll.rs:169-173 | how far any number of successful steps leads, in closed form on both sides of the cap |
| FrontierSearch.HalveDown | hztop/src/poll.rs:157-168 | the hint is halved until a block passes or block 1 fails, in at most one request per bit |
| FrontierSearch.Gallop | hztop/src/poll.rs:169-173 | the gallop ends, below any bound that held meanwhile, one step short of a block that failed |
| FrontierSearch.Bisect | hztop/src/poll.rs:174-183 | bisecting a power of two takes exactly its logarithm and ends between a passing and a failing neighbour |
| FrontierSearch.FindLast | hztop/src/poll.rs:145-184 | for any answers whatever: the search ends if the frontier stays bounded during the call; its result passed when asked for and the next block failed when asked for; each step of the gallop and its answer; exactly how many requests it made |
| FrontierSearch.SlowChainIsBounded | hztop/src/poll.rs:169-173 | on any chain that grows by less than the cap from request to request, the bound that makes the search end exists, and what it is |
| FrontierSearch.FastChainIsNeverOutrun | hztop/src/poll.rs:169-173 | a search of a chain that gains a given number of blocks per request has a result only if that number is less than the cap |
| FrontierSearch.LiveSearch | hztop/src/poll.rs:141-184 | against a growing frontier the result lies between the frontier at the first request and at the last, and there is none exactly when the frontier was still 0 at the last |
| FrontierSearch.StaticSearch | hztop/src/poll.rs:141-144 | with the chain at rest, for any hint, the result is the frontier, or none exactly when it is 0 |
| FrontierSearch.EdgeSearch | hztop/src/poll.rs:157-183 | for any fixed property a result has it and its successor has not; there is none exactly when every halving of the hint lacks it |
| FrontierSearch.MomentOfTruth | hztop/src/poll.rs:157-183 | if blocks arrive one at a time the result was the exact height at some moment of the call |
| FrontierSearch.SearchCost | hztop/src/poll.rs:141-182 | an upper bound on the requests by hint and distance |
| FrontierSearch.CostIsLogUpToSixCaps | hztop/src/poll.rs:141-182 | the cost keeps to two logarithms of the distance if and only if the distance is below 24575; below 8191 it is exactly that |
| FrontierSearch.CostAtRest | hztop/src/poll.rs:141-144 | the same with the chain at rest, by the distance from the hint to the height |
| FrontierSearch.CostIsLinear | hztop/src/poll.rs:141-182 | each request advances by at most one cap |
| FrontierSearch.CostIsNotLogarithmic | hztop/src/poll.rs:141-144 | for every factor there is a height such that any search from block 1, with the chain at rest there, makes more requests than that many times the logarithm |
| HeadTracking.FollowHead | hztop/src/poll.rs:102-132 | every round searches from the last tip found; right after the first and every fifth tip found comes a search from the last hard-confirmed block; a failed tip search is not counted |
| HeadTracking.HintIsNewestFind | hztop/src/poll.rs:108-129 | for any answers: after failed tip searches the newest tip ever found is asked for next; after a failed search for a hard-confirmed block, block 1 |
| HeadTracking.ResultsNeverFall | hztop/src/poll.rs:102-132 | with a frontier that never recedes, a block once found stays found and results never fall |
| HeadTracking.RememberedIsNewest | hztop/src/poll.rs:108-129 | the tip kept over failures and the hard tip overwritten by them are both always the newest result |
| HeadTracking.HintsHold | hztop/src/poll.rs:108-128 | each search after a successful one asks for that result first and finds it still passing, and costs at most 26 requests and one per 4096 blocks of growth |
| Alerts.StableSortIsUnique | hztop/src/alerts.rs:139 | there is only one stable order with the critical alerts first |
| Alerts.Compute | hztop/src/alerts.rs:34-141 | the alerts, with key, criticality and text, are the table's for every head in order, then stably sorted |
| Alerts.UnreachableRule | hztop/src/alerts.rs:39-48 | a head that does not answer has one critical alert, one never polled has none |
| Alerts.StatusRule | hztop/src/alerts.rs:49-55 | a reachable head whose status is anything but active has a critical alert that says so |
| Alerts.HardConfirmRule | hztop/src/alerts.rs:56-77 | which ages of the last hard confirmation raise an alert, which make it critical, and its text |
| Alerts.HeadroomRule | hztop/src/alerts.rs:78-99 | below a tenth of the most headroom seen there is an alert, below a fiftieth it is critical, and its text |
| Alerts.BackpressureRule | hztop/src/alerts.rs:100-111 | within a minute of a rejection there is an alert, never critical, and its text |
| Alerts.FallbackRule | hztop/src/alerts.rs:112-135 | which times to the deadline raise an alert, which make it critical, and its text |
| Alerts.KeyTellsApart | hztop/src/alerts.rs:34-141 | a key determines its head and its condition, even if head names contain colons |
| Alerts.AlertKeysAreUnique | hztop/src/alerts.rs:295-305 | for heads with different names no two alerts share a key |
| Alerts.AlertsMatchHeads | hztop/src/alerts.rs:34-141 | an alert is there exactly when its head raises its condition, with the criticality and text due |
| Alerts.AlertsHaveHeads | hztop/src/alerts.rs:34-141 | every alert comes from a head and a condition it raises, and has a key |
| AlertLog.Diff | hztop/src/main.rs:113-138 | first the raises of exactly the alerts whose key is new, in their order, then the clears of exactly those whose key is gone, each with the time of the evaluation and the key, text and criticality of its alert |
| AlertLog.App.constructor | hztop/src/persist.rs:25-38 | a session starts with no alert and the newest 200 loaded events |
| AlertLog.App.RefreshAlerts | hztop/src/main.rs:108-150 | the log becomes the newest 200 of its events and those transitions; which events are added, and what each says; the alerts are replaced; the file is written only if something changed |
| AlertLog.TransitionsAre | hztop/src/main.rs:117-138 | event by event and alert by alert, what a transition says and which there are |
| AlertLog.DrawAlertLog | hztop/src/ui.rs:637-671 | one line per event, newest first, a cleared one with the time since the nearest earlier raise of its alert |
| AlertLog.LastedMeans | hztop/src/ui.rs:649-660 | which raise a cleared event is paired with, by key or where there is none by text, and when it has no time |
| AlertHistory.RefreshKeepsInv | hztop/src/main.rs:108-150 | an evaluation keeps the full history and the capped log in step, the active keys and their openings known |
| AlertHistory.HistoryReplays | hztop/src/main.rs:113-146 | within a session the events replay to exactly the alerts there are, and the log is the newest 200 of everything loaded and logged |
| AlertHistory.ReplayAlternates | hztop/src/main.rs:113-138 | the events of each key alternate, raised first, and the key is active exactly when their number is odd |
| AlertHistory.FindAfterCut | hztop/src/ui.rs:651-655 | a lookup in a log that lost its oldest events finds the same raise or, if it was lost, nothing |
| AlertHistory.ClearedPairsWithOpening | hztop/src/ui.rs:649-660 | over any evaluations, restarts and lost saves, a cleared event pairs with the raise that opened that very activation, in its own session, and shows the time since; or with nothing if that raise was evicted |
| AlertHistory.ActiveCountsFromOpening | hztop/src/ui.rs:259-266 | the time shown for an active alert counts from the raise that opened its activation in this session, or is not shown |
| AlertTimes.ActiveShowsItsTime | hztop/src/ui.rs:259-266 | over any evaluations, restarts and lost saves, the time shown for an active alert is that since the evaluation that found it anew, or none |
| AlertTimes.ClearedShowsItsTime | hztop/src/ui.rs:649-660 | the time shown for a cleared one is that from the evaluation that found it anew to the one that missed it, or none |
| AlertSession.Session | hztop/src/main.rs:152-162 | a session of evaluating, logging and drawing, from whatever an earlier save had kept, is a continuation of that history |

## Left out

- RocksDB itself: write-ahead log, manifest, memtables, compaction. A store is a map from families to ordered maps with atomic durable batches and a view that moves on request.
- Loss of entries the node had not synced, followed by other entries under the same indices: excluded by the write-once hypothesis, on which byte equality rests.
- Pass.Run: requires that no journal's tip is the last index of 64 bits, because the source adds one to it unchecked (`hydrozoa-archiver/src/pass.rs:99`); a 32-bit journal at its last index is refused, as in the source.
- Journals that first appear between two openings of the node's store: the families of a life are fixed, as they are for one process.
- Archiver.RunArchiver: requires that the names on disk are as the node writes them, each once; names such as "Request:007", which parse but do not print back, are not modelled beyond opening.
- ArchiverLoop.Archive: runs for a given finite list of ticks; the source's loop does not end. Clock readings are inputs.
- Lifetime.RunPass: takes what a catch-up shows to be the node's entries within some windows, as the protocol's own catch-up does.
- FrontierSearch.FindLast: requires a bound on the blocks that pass during as many requests as the call can need; without one the source's gallop need not end. SlowChainIsBounded derives it from the rate of growth. A request that fails reads as a block that does not pass; LiveSearch and StaticSearch assume truthful answers, the contract of FindLast does not.
- HeadTracking.FollowHead: runs for a given number of rounds against answers bounded for as many requests as those rounds can make; the block details fetched are not modelled.
- Alerts.HeadroomRule: compares exact ratios where the source rounds to double precision.
- AlertLog.App.RefreshAlerts: a save may fail silently; two sessions writing one file at once are covered only in so far as the file holds some earlier log of this one.
- AlertHistory.ReplayAlternates: within one session; a new session raises again what was active when the last one ended.
- Stamps.Codec: text is decoded by any total function that undoes its encoding; UTF-8 and its replacement characters are not modelled.
- Provenance.Open: an archive that holds a family not asked for is refused, which is how the storage library opens for writing.
- Unknown column families, the dry run, configuration, logging, HTTP, JSON and credentials.
- The request record codec, rings of samples, screens and all other drawing.
