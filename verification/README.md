# A verified model of mutant's core

mutant is a scripting language for forensic casework. This project models, in
Dafny, the parts of it on which an examiner's conclusions rest, and proves what
they promise.

- **Case-insensitive search.** A rule is searched in a lowered copy of a file
  and each hit is mapped back by sparse marks. It finds exactly what the
  byte-by-byte definition finds, in any bytes, valid UTF-8 or not.
  (`Utf8`, `CaseFold`, `FoldSearch`)
- **The case ledger.** Hash-linked chains of property maps for the lifecycle,
  assignments, reviews, retention, erasures and custody of a case, the readers
  that check them, and the builtins that append to them. Three layers: a chain
  and its reader (`Text`, `Digest`, `Order`, `ChainUid`, `CaseChain`); the case
  as its readers see it, each builtin one atomic step, and what every run of
  steps keeps (`CaseLifecycle`, `CaseReview`, `Times`, `CaseRetention`,
  `CaseErasure`, `CaseEvidence`, `CaseLedger`, `CaseRuns`, `CaseTaken`,
  `CaseHistory`); and the builtins on the chains themselves, computing uids as
  they append, which refine those steps (`CaseProps`, `CaseBooks`,
  `CaseWrites`, `CaseReads`, `CaseWhole`, `CaseStore`).
- **Erasure on the disk.** Erasing a record's key and a case key as protocols
  whose every step may fail or be cut short by a crash. (`RecordErase`,
  `KeyFile`, `KeyErase`)
- **The audit log.** A capped hash chain and the walker that checks it.
  (`Audit`)
- **Object graphs.** The search for classified plaintext over shared and cyclic
  values, the cache's deep copy and the cache around it, and the syntax tree's
  `Equal`, `Clone` and `Modify`. (`Classified`, `CacheCopy`, `Cache`, `Ast`,
  `AstNodes`, `AstModify`, `AstLayout`)
- **Keys of nested values.** The self-delimiting key behind `unique`.
  (`UniqueKey`, `Unique`)
- **Channels and timelines.** Channels under every interleaving, the registry of
  their handles, and the timeline made of bodyfile entries. (`Channels`,
  `ChannelRegistry`, `Mactime`)

The main results are `FoldSearch.CaseFoldMatcher.Offsets`,
`CaseChain.CaseChainRead`, `CaseWrites.WriteRefines`, `CaseReads.EveryLedger`,
`CaseReads.EveryCall`, `CaseStore.PerformAll`, `CaseHistory.RetentionReadsIff`,
`CaseHistory.GoneForEverIff`, `CaseEvidence.CustodyUnbroken`,
`RecordErase.Eraser.Erase`, `KeyFile.Directory.Rewrite`,
`KeyErase.Session.Erase`, `Audit.OnlyTheGenuineLog`, `Audit.IntactIff`,
`Classified.FindClassified`, `CacheCopy.Copy`, `Cache.Isolated`,
`UniqueKey.KeyIff`, `Unique.Uniques`, `Ast.CopyIsEqual`, `AstModify.UsedTwice`,
`Channels.RunKeeps`, `Channels.AcceptedLaterIff` and `Mactime.Timeline`.

SHA-256 is any function to sixty-four hexadecimal digits. No property of it is
assumed: a theorem about integrity says "the same, or here are two distinct
texts with one digest", and the two are texts that the records at hand hash.
Lower-casing is any table on scalars that agrees with ASCII. Clocks, file
contents, the outcomes of system calls and measured digests are parameters.

Where a promise turned out to hold only on a condition, the condition is proved
exact:

- a syntax tree equals itself unless it holds a NaN (`Ast.EqualReflexive`), and
  equals its clone unless a NaN or a detached `Name` or `ReturnValue` is in the
  way (`Ast.CopyIsEqual`);
- a retention period set reads back unless its UTC year is before 0 or after
  9999, which the argument allows; after one that does not, nothing of the
  case is erased or disposed of again (`CaseHistory.RetentionReadsIff`,
  `CaseHistory.UnreadForGood`);
- the exhibits of a disposed case stay gone unless one was returned and somebody
  is assigned (`CaseHistory.GoneForEverIff`);
- in a custody chain the reader accepts a holder is named exactly while there is
  one if everybody who took the exhibit is, which the writers see to and the
  reader does not ask (`CaseEvidence.HolderNamedIff`);
- a send is accepted after the close only if it had looked before it
  (`Channels.AcceptedLaterIff`);
- `cache_delete` answers whether a key is alive unless it is an expired entry
  still held (`Cache.Store.Delete`), and a cache entry lives its full time unless
  that is longer than 9223372036 seconds (`Cache.ExpiryExact`);
- the header of a record recorded as erased is the erased one at the commit
  unless somebody put another back since it was read back
  (`RecordErase.Eraser.Erase`).

`dafny verify dfyconfig.toml` checks the whole project.

## Model

| member | source | states |
|---|---|---|
| `Utf8.DecodeOfEncoding` | builtin/binary_analysis.go:451-463 | Wherever the UTF-8 encoding of a scalar stands in any bytes, decoding there gives that scalar and its length, whatever surrounds it (sections 3 and 4 of RFC 3629) |
| `Utf8.EncodeOfDecoded` | builtin/binary_analysis.go:451-463 | The converse: a place that decodes to a scalar holds that scalar's one encoding, so no over-long form, surrogate or cut-off sequence decodes |
| `Utf8.DecodeInside` | builtin/binary_analysis.go:533-556 | A rune decoded inside a needle is the rune decoded where the needle occurs in a larger text |
| `Utf8.EncodingIs` | builtin/binary_analysis.go:451-463 | How many bytes a scalar takes, the leading bits that say so, and its own bits in order, six to a byte after the first (section 3 of RFC 3629) |
| `CaseFold.LiteralMatches` | builtin/binary_analysis.go:533-556 | A rule matches at every offset where its own literal bytes occur, valid UTF-8 or not, and the match ends where those bytes end |
| `CaseFold.MatchIff` | builtin/binary_analysis.go:533-556 | A rule, valid UTF-8 or not, matches from one offset to another exactly if the file and the rule can be cut there into as many places that pair up: a rune with a rune of one lower case, a byte that is part of no rune with itself |
| `CaseFold.KeptSpelling` | builtin/binary_analysis.go:429-463 | Invalid bytes kept one by one cannot come together in the copy to spell a rune that the file does not itself spell there |
| `CaseFold.RuneAtFront` | builtin/binary_analysis.go:429-463 | If the copy of what is left of the file begins with a rune's encoding, the unit there was lowered to exactly that rune: no hit starts with kept bytes or inside a lowered rune |
| `CaseFold.HitIsMatch` | builtin/binary_analysis.go:467-481 | At a unit boundary the lowered rule occurs in the lowered copy if and only if the rule matches the file there unit by unit, and both end at positions that line up |
| `CaseFold.AlignedOrder` | builtin/binary_analysis.go:487-502 | File positions and copy positions of unit boundaries determine each other and come in the same order |
| `CaseFold.MatchHasHit` | builtin/binary_analysis.go:467-481 | Every match of a valid rule in the file has its hit in the copy |
| `CaseFold.HitHasMatch` | builtin/binary_analysis.go:467-481 | Every hit of a lowered valid rule in the copy is the hit of a match in the file |
| `CaseFold.GreedyIsLeftmost` | builtin/binary_analysis.go:507-529 | The greedy scan is characterised without itself: increasing matching offsets, none inside the match before it, and every matching offset left out lies inside one that was kept |
| `FoldSearch.FoldHaystack` | builtin/binary_analysis.go:429-444 | The copy is the lowering of the whole file, and mark k stands on a unit boundary with file position in [k*1024, k*1024+3], up to within 1027 bytes of the end |
| `FoldSearch.WalkStart` | builtin/binary_analysis.go:487-502 | The walk to any unit boundary starts fewer than 1024+4 file bytes before it |
| `FoldSearch.WalkTo` | builtin/binary_analysis.go:487-502 | The walk reaches the one file offset that lines up with the copy position |
| `FoldSearch.FoldedOffsets` | builtin/binary_analysis.go:467-481 | For a valid rule the search in the lowered copy reports exactly the greedy scan of the file itself |
| `FoldSearch.CaseFoldMatchAt` | builtin/binary_analysis.go:533-556 | The byte-by-byte loop finds where a match ends, the file and the rule pairing up place by place to there, or that there is no such end, for a rule that is valid UTF-8 or not |
| `FoldSearch.ByteSkip` | builtin/binary_analysis.go:507-529 | For a rule that begins with an invalid byte, jumping to the next occurrence of that byte loses no match |
| `FoldSearch.CaseFoldWalk` | builtin/binary_analysis.go:507-529 | The walk over the file, with its skip, reports the greedy scan: increasing offsets at each of which a match begins, none inside the one before, and no other match outside them |
| `FoldSearch.ToLowerText` | builtin/binary_analysis.go:377-385 | Lowering a valid rule rune by rune is the lowering the file gets |
| `FoldSearch.CaseFoldMatcher.Offsets` | builtin/binary_analysis.go:377-385 | Whichever path a rule takes, and whether or not the copy was built by an earlier rule, the offsets are the greedy leftmost matches |
| `Text.FieldsInjective` | builtin/audit.go:163-175 | A list of texts, each behind its decimal length and a colon, reads back as one list only |
| `Text.FramesInjective` | builtin/case_chain.go:64-87 | A list of texts, each behind its eight-byte length, reads back as one list only |
| `Order.LeqIff` | builtin/bodyfile_builtins.go:144-156 | Text comes before other text exactly if it is a beginning of it, or has the smaller byte where they first differ |
| `Order.SortForgetsOrder` | builtin/case_chain.go:64-87 | Sorted text depends on what is sorted and not on the order a map handed it over in |
| `ChainUid.UidTextInjective` | builtin/case_chain.go:64-87 | What a uid digests fixes every property of the event but the uid itself |
| `ChainUid.UidTextIs` | builtin/case_chain.go:64-87 | What is digested is the heading `mutant-case-chain-v1`, the chain's prefix, and every property but the uid, each with its value, by ascending key |
| `ChainUid.CaseChainUid` | builtin/case_chain.go:64-87 | The loop over the map computes the uid whatever order the map is gone through in |
| `CaseChain.OrderTakesNoPart` | builtin/case_chain.go:101-170 | Whatever nodes there are, genuine or not, and whatever order they come in, the reader returns the same line or refuses both ways |
| `CaseChain.ChainUnique` | builtin/case_chain.go:101-170 | A set of events forms one line at most |
| `CaseChain.CaseChainRead` | builtin/case_chain.go:101-170 | On any events at all, with cyclic, forked or missing links, it ends; it succeeds exactly if every uid recomputes and the events form one line by prev links with seq 1..n, and returns that line |
| `CaseChain.ReadsIff` | builtin/case_chain.go:101-170 | What is read is a line exactly if no node is unreadable, the events among the nodes are those of the line, each as often, event i has the digest of its other properties for uid, i for seq and the uid of the event before it (none for the first) for prev_uid, and no two name one predecessor |
| `CaseChain.UidsDistinct` | builtin/case_chain.go:64-87 | Two events of a genuine line have different uids, or two distinct texts of the line with one digest are at hand |
| `CaseChain.LineHasNoFork` | builtin/case_chain.go:101-170 | A genuine line has no fork, or that clash |
| `CaseChain.AppendedShape` | builtin/case_chain.go:182-205 | What is appended recomputes, names the head and has the next seq |
| `CaseChain.ReadAfterAppend` | builtin/case_chain.go:182-205 | Appending after the head makes the events read as the old chain and the new event, or shows a clash of two digests |
| `CaseChain.ChainAppend` | builtin/case_chain.go:182-205 | The writer computes that event |
| `CaseChain.LineReads` | builtin/case_chain.go:101-170 | Nodes of a genuine line, in whatever order, are read as that line, or two of its events clash |
| `CaseLifecycle.CaseLifecycleRead` | builtin/case_lifecycle.go:264-290 | It accepts exactly the move chains that start unregistered, go on from where they are and follow the table, and returns the state they end in |
| `CaseLifecycle.NothingAfterDisposal` | builtin/case_lifecycle.go:119-127 | No move follows a disposal |
| `CaseLifecycle.WhatComesBefore` | builtin/case_lifecycle.go:119-127 | A conclusion follows a review, and a disposal follows retention, in every readable chain |
| `CaseReview.ReviewsRead` | builtin/case_review.go:127-173 | It accepts exactly the requests and decisions that fit one another: this case's, of subjects and decisions it knows, each request decided once at most and by a decision that names it |
| `CaseRetention.RetentionRead` | builtin/case_retention.go:91-133 | It accepts exactly the chains of this case's events in which every time can be read and a release lifts a hold in force, and returns the last period and the holds in force |
| `CaseRetention.InForceIff` | builtin/case_retention.go:91-133 | A hold is in force exactly if it was placed and no release lifted it |
| `CaseRetention.NoneInForceIff` | builtin/case_retention.go:91-133 | No hold is in force exactly if every hold placed has been lifted |
| `CaseRetention.PeriodIs` | builtin/case_retention.go:91-133 | The period in force is the one the last event that sets one names, and there is none if no event does |
| `CaseRetention.HoldsAfter` | builtin/case_retention.go:91-133 | Each event's effect on the holds in force: a period none, a hold adds itself at the end, a release takes out the one it names, the order of placing kept |
| `CaseRetention.RetentionAppend` | builtin/case_retention.go:239-262 | What the writers append keeps the chain in order, and it reads back exactly if it did and the time appended, if one is, can be read |
| `CaseRetention.GoodIsKeptAndTimed` | builtin/case_retention.go:98-133 | A retention chain reads back exactly if it is in order and every time in it can be read |
| `Times.InstantOf` | builtin/case_retention.go:357 | Every instant, in any year, is that of its date and its time of day |
| `Times.ReadsBackIff` | builtin/case_retention.go:110-114 | Any instant, written in UTC with its fraction cut short and parsed again, is that instant exactly if its year is one of 0 to 9999, and is refused otherwise |
| `Times.TakenButNotSayable` | builtin/case_retention.go:192-207 | 9999-12-31T23:59:59-01:00 is taken as an argument, and is an instant of the UTC year 10000 |
| `CaseErasure.GenerationsRoundTrip` | builtin/case_erasure.go:206-227 | The list of generations written in an erasure reads back as that list |
| `CaseErasure.ParseIff` | builtin/case_erasure.go:206-227 | A text names generations exactly if it spells them in decimal digits, each from 1 to 4294967295, with commas between |
| `CaseErasure.ErasureRead` | builtin/case_erasure.go:146-165 | It accepts exactly the well-formed erasure chains and returns the erasure of every generation, if there is one |
| `CaseErasure.NothingAfterKeyErasure` | builtin/case_erasure.go:146-165 | In a chain that reads, nothing follows the erasure of every generation |
| `CaseEvidence.EvidenceReadNode` | builtin/case_evidence.go:182-201 | It accepts exactly the custody chains every event of which checks against what came before it |
| `CaseEvidence.NothingAfterDisposal` | builtin/case_evidence.go:123-130 | Nothing follows a disposal |
| `CaseEvidence.CustodyUnbroken` | builtin/case_evidence.go:182-256 | At every event of an accepted chain somebody last took the exhibit; every event from that taking on is theirs, they hold it exactly while it is held or in transit, and an accept is by whoever the holder before named, in the release just before |
| `CaseEvidence.HolderNamedIff` | builtin/case_evidence.go:215-256 | In an accepted chain a holder is named exactly while the exhibit is held or in transit if and only if everybody who took it is named |
| `CaseEvidence.NobodyAccepted` | builtin/case_evidence.go:215-256 | The reader does not ask for that: it accepts an intake by nobody |
| `CaseProps.MoveReadsBack` | builtin/case_lifecycle.go:796-815 | A lifecycle event as written under its prefix, whatever else is noted in it, is read as the move it was written for, with its computed uid |
| `CaseProps.RoleReadsBack` | builtin/case_lifecycle.go:821-855 | An assignment as written is read as that role, on the examiner side, of this case and this person |
| `CaseProps.RequestReadsBack` | builtin/case_review.go:430-460 | A review request as written is read as that request, with its computed uid |
| `CaseProps.DecisionReadsBack` | builtin/case_review.go:606-623 | A decision as written is read as that decision |
| `CaseProps.RetentionReadsBack` | builtin/case_retention.go:239-262 | A retention event as written is read as that hold, that release, or a period whose time is what the text written parses to |
| `CaseProps.ErasureReadsBack` | builtin/case_erasure.go:270-290 | An erasure as written is read as that erasure, with its computed uid |
| `CaseProps.CustodyReadsBack` | builtin/case_evidence.go:346-384 | A custody event as written, with the properties its kind has and no others, is read as that event, with its computed uid |
| `CaseStore.Store.ReadChain` | builtin/case_chain.go:101-170 | Of a chain that was appended event by event, caseChainRead returns that chain or refuses |
| `CaseStore.Store.LifecycleRead` | builtin/case_lifecycle.go:264-290 | The chain and then its moves: the state exactly if both read back |
| `CaseStore.Store.AssignmentsRead` | builtin/case_lifecycle.go:300-399 | Every assignment chain read and checked: the latest assignment of everybody the case assigns |
| `CaseStore.Store.ReviewsRead` | builtin/case_review.go:127-173 | The request chain and every request's decision chain: each request with its decision, exactly if they fit |
| `CaseStore.Store.CaseAttach` | builtin/case_lifecycle.go:1028-1184 | The first attachment registers the case and its owner in one commit, a later one asks for the role on record; refused, nothing changes |
| `CaseStore.Store.CaseDisposalRefusal` | builtin/case_erasure.go:1136-1189 | It gives way exactly on the grounds for a disposal, and names the erasure of the key; or a chain does not read back. `CaseTaken.GroundsIff` says what the grounds are, by the events |
| `CaseStore.Store.CaseTransition` | builtin/case_lifecycle.go:1228-1322 | The transition is the ledger step of that name, or a refusal that changes nothing |
| `CaseStore.Store.CaseAssign` | builtin/case_lifecycle.go:1330-1444 | An assignment is refused where it would change nothing, and recorded otherwise |
| `CaseStore.Store.ReviewRequest` | builtin/case_review.go:349-508 | A request is recorded once a subject, and a case request moves the case to review in the same commit |
| `CaseStore.Store.ReviewDecide` | builtin/case_review.go:516-669 | A decision is recorded by a reviewer who did not ask, and on a case request moves the case to concluded or back to active |
| `CaseStore.Store.RetentionSet` | builtin/case_retention.go:192-392 | From the text given: refused if it is no time; otherwise a period is set on a concluded or retained case, written as text, and the first moves the case to retained |
| `CaseStore.Store.RetentionHold` | builtin/case_retention.go:400-474 | A hold is appended where the state takes it |
| `CaseStore.Store.RetentionRelease` | builtin/case_retention.go:478-559 | Only a hold in force is lifted |
| `CaseStore.Store.Erasure` | builtin/case_erasure.go:405-417 | An erasure is recorded only by a disposer, with no hold in force and the key not yet erased |
| `CaseStore.Store.EvidenceIntake` | builtin/case_evidence.go:580-760 | A new exhibit is taken in where the state allows it; a returned one comes back in any state, with a discrepancy if its digest changed |
| `CaseStore.Store.EvidenceHandOn` | builtin/case_evidence.go:786-1055 | Release, return and disposal by the holder, the last by a disposer with no hold in force |
| `CaseStore.Store.EvidenceAccept` | builtin/case_evidence.go:870-948 | Acceptance by the named recipient, compared with the intake |
| `CaseStore.Store.Perform` | builtin/case_lifecycle.go:714-726 | Every builtin, on chains of property maps with uids it computes, is one atomic call: made whole, or refused with nothing changed; it refuses a call the case takes only if a chain does not read back, which takes two texts with one digest |
| `CaseStore.PerformAll` | builtin/case_lifecycle.go:714-726 | After any calls in any order, by anyone, on a new case: caseChainRead returns every chain as it was written, assignments are each in their own chain, the chains agree and every holder is named, or two of the texts hashed clash; and retentionRead accepts its chain exactly if every period set has a UTC year from 0 to 9999 |
| `CaseRuns.TransitionKeeps` | builtin/case_lifecycle.go:1228-1322 | A transition keeps the invariant, the disposing one included: every chain is in order, and they agree |
| `CaseRuns.RequestStepKeeps` | builtin/case_review.go:349-508 | A review request with a uid of its own keeps it |
| `CaseRuns.DecideStepKeeps` | builtin/case_review.go:516-669 | A review decision keeps it, where requests have uids of their own |
| `CaseRuns.SetRetentionKeeps` | builtin/case_retention.go:298-392 | Setting the period keeps it, whether or not its time will be read |
| `CaseRuns.LiftKeeps` | builtin/case_retention.go:478-559 | Lifting a hold keeps it |
| `CaseRuns.HandOnKeeps` | builtin/case_evidence.go:786-1055 | Release, return and disposal keep it |
| `CaseTaken.GroundsIff` | builtin/case_erasure.go:1136-1189 | There are grounds for a disposal exactly if every time set can be read, every hold placed has been lifted, the last period set ends at that moment or before, every exhibit was last returned or disposed of, and some erasure is of every generation of the key; the disposal names such an erasure |
| `CaseTaken.DisposalIff` | builtin/case_lifecycle.go:1228-1322 | A case is disposed of exactly if it is retained, its owner or an administrator asks, and there are those grounds |
| `CaseTaken.DisposalStays` | builtin/case_retention.go:72-82 | A disposal granted at one time is granted at every later one |
| `CaseTaken.AttachIff` | builtin/case_lifecycle.go:1028-1184 | A run attaches exactly if it has not yet, the role is asserted, and the case is new or has that role on record for that person |
| `CaseTaken.MoveIff` | builtin/case_lifecycle.go:119-127 | The other moves of case_transition are exactly to active, from registered and from concluded |
| `CaseTaken.AssignIff` | builtin/case_lifecycle.go:1330-1444 | An assignment is taken exactly if the case is not disposed and the role is another than the one on record |
| `CaseTaken.RequestIff` | builtin/case_review.go:349-508 | A review is asked for exactly of an active case by a manifest that names its lifecycle head, or of a record or redaction version found in a case not disposed; with none of that subject waiting |
| `CaseTaken.DecideIff` | builtin/case_review.go:516-669 | A review is decided exactly by a reviewer, with one of three decisions, on a waiting request of somebody else's in a case not disposed, and on one for the case only while it is in review |
| `CaseTaken.SetIff` | builtin/case_retention.go:192-392 | A period is set exactly on a concluded or retained case whose times can be read, if it is another than the last one set |
| `CaseTaken.HoldIff` | builtin/case_retention.go:400-474 | A hold is placed exactly on a case not disposed whose times can be read |
| `CaseTaken.LiftIff` | builtin/case_retention.go:478-559 | A hold is lifted exactly if it was placed, no release has lifted it, and the case is not disposed and its times can be read |
| `CaseTaken.ErasureIff` | builtin/case_erasure.go:405-417 | An erasure is recorded exactly for an owner or an administrator, in a case not disposed, with every hold lifted and the key not erased whole, of a record or of generations of the key |
| `CaseTaken.TakeInIff` | builtin/case_evidence.go:580-760 | An exhibit is taken in exactly by somebody assigned: a new one in no case in review, concluded, retained or disposed, a returned one in any, with a discrepancy noted if its digest is another |
| `CaseTaken.HandOnIff` | builtin/case_evidence.go:786-1055 | An exhibit is released, returned or disposed of exactly by its holder: released to somebody else who is assigned, disposed of by an owner or an administrator with every hold lifted |
| `CaseTaken.TakeOverIff` | builtin/case_evidence.go:870-948 | An exhibit is accepted exactly by whoever it was released to, with a discrepancy noted if its digest is another than at the intake |
| `CaseHistory.StepGrows` | builtin/case_chain.go:182-205 | No step takes an event out of any chain or changes one |
| `CaseHistory.StepKeepsInv` | builtin/case_lifecycle.go:714-726 | Every step of any builtin keeps the invariant over all the chains together, where the requests' uids differ |
| `CaseHistory.RunKeepsInv` | builtin/case_lifecycle.go:714-726 | Whatever uids the events are given, in every state of every run in which the requests' uids differ every chain is in order and the chains agree |
| `CaseHistory.InvInOrder` | builtin/case_review.go:401-645 | What the invariant says: in_review exactly if one case request is undecided, which the lifecycle head names; a period set exactly if retained or disposed; the latest case request approved by another than its requester from the conclusion on; in every disposed state no hold, a period and an erased key |
| `CaseHistory.SetReadsIff` | builtin/case_retention.go:192-378 | After a period is set the retention chain reads back exactly if its UTC year is one of 0 to 9999, and then the period in force is the instant given |
| `CaseHistory.LateIsTakenAndNotRead` | builtin/case_retention.go:192-378 | 9999-12-31T23:59:59-01:00 is such a period: it is set, and the chain does not read back |
| `CaseHistory.RetentionReadsIff` | builtin/case_retention.go:91-133 | In every state of every run the retention chain reads back exactly if every period set so far has a UTC year from 0 to 9999 |
| `CaseHistory.UnreadForGood` | builtin/case_retention.go:167-184 | In every run, once the retention chain does not read back it never changes, nothing is erased, and neither the case nor any exhibit is disposed of |
| `CaseHistory.GoneForEverIff` | builtin/case_evidence.go:61-68 | Every exhibit of a disposed case is gone; over all that may follow they stay gone exactly if none was returned (each was disposed of) or the case assigns nobody |
| `CaseHistory.DisposalCommit` | builtin/case_erasure.go:1136-1189 | At the step that disposes a case its owner or an administrator acts, it was retained, no hold is in force, the period in force ends at that moment or before, every exhibit is gone and every generation erased, and the move names that erasure |
| `CaseHistory.PeriodIsLastSet` | builtin/case_retention.go:91-133 | In every run, while the retention chain reads back, the period in force is the instant given to the last retention_set so far, and there is none before the first |
| `CaseHistory.DisposedAfterPeriod` | builtin/case_erasure.go:1136-1189 | In every run a case is disposed of at or after the instant given to the last retention_set, of which there is one |
| `CaseHistory.MovesAre` | builtin/case_lifecycle.go:119-127 | Every step that moves the case makes one of its eight moves, by the builtin that makes it, and appends it to the lifecycle |
| `CaseHistory.NewExhibits` | builtin/case_lifecycle.go:184-190 | No step takes in a new exhibit while the case is in review, concluded, retained or disposed |
| `CaseHistory.DisposedForGood` | builtin/case_lifecycle.go:184-190 | From a disposal on, in every run, the lifecycle, assignment, review, retention and erasure chains never change |
| `CaseHistory.NothingDestroyedUnderHold` | builtin/case_evidence.go:1036-1043 | No step that disposes of an exhibit, records an erasure or disposes of the case is made while a hold is in force or the retention chain does not read, and only a case owner or an administrator makes one |
| `CaseHistory.NoErasureAfterKey` | builtin/case_erasure.go:806-818 | Once every generation is erased no step records another erasure |
| `CaseHistory.EveryStep` | builtin/case_erasure.go:1136-1189 | All of it together, of every step of every run: chains only grow; nothing is destroyed under a hold or erased after the key, and only by an owner or an administrator; the case moves only as its table says; no new exhibit comes in from review on; and the disposing step is at or after the instant given to the last retention_set, with every exhibit gone and the key erased |
| `CaseWrites.WriteRefines` | builtin/case_lifecycle.go:775-870 | Every builtin, computing each event's uid from what it records, its position and the event before it, makes exactly the step of the case as it is read, and changes no chain but by appending |
| `CaseReads.RunsAreRuns` | builtin/case_lifecycle.go:714-726 | What is read along a run of calls on the chains is a run of the case, so all that is proved of runs holds of it |
| `CaseReads.BuiltIsRead` | builtin/case_chain.go:101-205 | Chains that were appended event by event read back as written, whatever order their nodes come in, or two of their texts clash |
| `CaseReads.ReadsThatOrNothing` | builtin/case_chain.go:101-170 | Of a chain that was appended event by event the reader returns that chain or nothing, of whatever length it is |
| `CaseReads.EveryLedger` | builtin/case_lifecycle.go:110-198 | After any calls on a new case: caseChainRead returns every chain as it was written; the lifecycle, review, erasure, custody and assignment readers accept theirs; lifecycle, reviews, retention, erasures, custody and assignments agree; and a holder is named exactly while an exhibit is held or in transit. Or two of the texts hashed clash. The retention reader accepts its chain exactly if every period set so far has a UTC year from 0 to 9999. Nothing is supposed of uids |
| `CaseWhole.WholeCase` | builtin/case_lifecycle.go:110-198 | For every digest function and every case there are calls that take it, on the chains, through registration, review, conclusion, retention and the erasure of its key to its disposal |
| `CaseReads.EveryCall` | builtin/case_erasure.go:1136-1189 | Of every call of every run on the chains: they only grow; nothing is destroyed under a hold or erased after the key, and only by an owner or an administrator; the case moves only as its table says; no new exhibit comes in from review on; and the disposing call is at or after the instant given to the last retention_set, with every exhibit gone and the key erased |
| `RecordErase.Eraser.Erase` | builtin/case_erasure.go:334-496 | With any step failing, a failed write leaving anything, and others writing the file at any point: nothing is recorded but by the commit; a recorded erasure means the header read back was the erased one, and at the commit it is exactly if nobody put back another since; undisturbed, the file is prefix, erased header and the unchanged rest, and what is recorded are the digests of the file before and after and of the two headers; left alone it erases exactly what the ledger accepts |
| `RecordErase.HeaderIff` | security/record_file.go:877-937 | The header of a file is what follows its magic and the four bytes of its length, exactly if that length is at least one, at most eight mebibytes, and all there |
| `KeyFile.Directory.WriteBeside` | builtin/case_erasure.go:1058-1071 | The new document is on the disk beside the file before anything is overwritten, and the old one is in place until then |
| `KeyFile.Directory.Overwrite` | builtin/case_erasure.go:1085-1109 | It succeeds exactly if no step fails; then the file is the document and no more, and the whole old length had been overwritten on the disk before the padding was cut off |
| `KeyFile.Directory.Rewrite` | builtin/case_erasure.go:1058-1079 | After every step, however writes not yet forced to the disk are torn, the old document, the new one or the new one with padding is whole at the path or beside it; success exactly if no step fails and no copy was pending |
| `KeyFile.Directory.Destroy` | builtin/case_erasure.go:1025-1049 | The file is removed only once zeros of its whole length are on the disk |
| `KeyErase.Session.Erase` | builtin/case_erasure.go:728-922 | A case key erasure on record says every generation there was, or the one, and is one on the disk, done in that way, and in memory; one that fails anywhere leaves the ledger as it was; erasing one generation leaves a key file to open at every moment |
| `Audit.LinkTextInjective` | builtin/audit.go:163-175 | What a link digests fixes the previous hash, the seq, the event, the stage and the time |
| `Audit.LinkTextIs` | builtin/audit.go:163-175 | What a link digests is `mutant-audit-1`, the previous hash, the seq, the time, the event and the stage, each behind its length |
| `Audit.FirstRetainedIs` | builtin/audit.go:589-596 | The retained run starts a whole number of quarters of 1024 in, the fewest that leave at most 4096 entries |
| `Audit.NextFirstRetained` | builtin/audit.go:123-154 | The closed form moves on by a quarter exactly when an append finds the log full |
| `Audit.KeptAppend` | builtin/audit.go:123-154 | Dropping a quarter on a full log and appending is what the closed form says is kept of the longer chain |
| `Audit.AuditChain.AppendEntry` | builtin/audit.go:123-154 | After any appends the log holds exactly the entries the closed form predicts, consecutive up to the last, with dropped plus retained equal to the total |
| `Audit.AuditChain.TakeSnapshot` | builtin/audit.go:185-200 | The snapshot is the head, the total, the dropped count and the retained run |
| `Audit.AuditWalk` | builtin/audit.go:460-564 | It reports a log intact exactly if it is, reports the head, entries and dropped count of what it checked (an empty log has head ""), and names the first break otherwise |
| `Audit.IntactIff` | builtin/audit.go:460-564 | A log is intact exactly if it starts where a log that ends where it ends must start and is, entry for entry, what a chain goes on to write for the events it reports after the hash its first entry names, which is sixty-four zeros for the first of all |
| `Audit.HonestLogIntact` | builtin/audit.go:460-564 | Every non-empty log the writer leaves is intact, with the true head, entries and first seq |
| `Audit.SameHashSameEntry` | builtin/audit.go:460-564 | An entry with a genuine entry's hash says what that entry says, or two distinct link texts with one digest are at hand |
| `Audit.OnlyTheGenuineLog` | builtin/audit.go:460-564 | An intact non-empty log whose head is a genuine chain's is, entry for entry, that chain's retained run, or two distinct link texts with one digest are at hand |
| `Classified.Walker.Walk` | builtin/classified.go:76-181 | One visit: it ends on any graph, a hit is where it says and first, nothing found and not deep means the value is finished, and deep is set only by a path of that length |
| `Classified.ContainsIff` | builtin/classified.go:76-181 | The walk goes from a value into exactly what the value contains: an element, a key or a value of a pair, a field, a related value, one of several values, the value held |
| `Classified.WalkedInOrder` | builtin/classified.go:76-181 | And in that order: as they stand, each key before its value, related values by name |
| `Classified.CleanIff` | builtin/classified.go:76-181 | No path the walk can take ends at a mark exactly if nothing reached by containment is marked |
| `Classified.FindClassified` | builtin/classified.go:76-181 | On any graph, cyclic or shared: a hit is the mark and size of a value reached through elements, keys and values of pairs, fields, related values, several values and a value held; nothing found and not deep means no value so reached is marked; unless deep, no path without a repeat reaches a mark before the one returned; deep means a trail of more than 64 steps; with no such trail the walk decides |
| `Classified.RefuseClassified` | builtin/classified.go:283-298 | No refusal means nothing any argument reaches is marked; a refusal names the first of which that is not so, or which has a trail of more than 64 steps |
| `CacheCopy.SaysOnce` | builtin/cache.go:448-520 | What a value says is one tree at most, so equal structure is well defined; a value that loops says none |
| `CacheCopy.KeptIff` | builtin/cache.go:448-520 | A value fits exactly if there is no way of sixty-five parts down from it |
| `CacheCopy.Copy` | builtin/cache.go:448-520 | It ends on a value that holds itself; it succeeds exactly if the value says something no deeper than 64 levels that a cache can hold, and the copy says the same with objects that did not exist before |
| `Cache.ExpiryExact` | builtin/cache.go:81-123 | A time to live is kept to the second exactly up to 9223372036 seconds; past that the 64-bit product does not fit |
| `Cache.AliveUntil` | builtin/cache.go:81-182 | A key put with no time to live is alive at any time; one put for up to 9223372036 seconds is alive at a moment exactly if that is at most so many seconds after it was put |
| `Cache.ExpiredWhenPut` | builtin/cache.go:81-123 | From 9223372037 to 18446744073 seconds the entry is expired when it is put |
| `Cache.Store.Put` | builtin/cache.go:81-123 | The key stands for what the value says at that moment until its expiry; a negative time to live or a value that cannot be copied is refused and changes nothing |
| `Cache.Store.Get` | builtin/cache.go:125-182 | It finds the key exactly if the map has it alive, answers with what the map has in objects made for the answer, and hits plus misses are the gets |
| `Cache.Store.Delete` | builtin/cache.go:184-212 | The key stands for nothing afterwards; the answer is whether there was an entry, which at any time is whether the key is alive exactly if it is not an expired entry still held, and so always straight after a cleanup |
| `Cache.Store.CleanupExpired` | builtin/cache.go:359-366 | The entries left are exactly the keys alive, each drop counted |
| `Cache.Store.Keys` | builtin/cache.go:214-244 | The keys alive, sorted |
| `Cache.Store.Statistics` | builtin/cache.go:246-278 | The number of keys alive, and hits plus misses equal to the gets |
| `Cache.Store.Clear` | builtin/cache.go:280-303 | The map is empty afterwards, and the answer is how many entries there were |
| `Cache.Isolated` | builtin/cache.go:448-520 | A value is put and then overwritten with anything, a get's answer is overwritten with anything, and a later get still says what was put |
| `UniqueKey.Splits` | builtin/collections_builtins.go:264-324 | Where a key ends is settled by the key: if two keys, each followed by anything, are the same text, then the values are the same and so is what follows |
| `UniqueKey.SameKey` | builtin/collections_builtins.go:264-311 | The same value, hash pairs in any order, has the same key |
| `UniqueKey.KeyIff` | builtin/collections_builtins.go:258-324 | Two values get one key exactly if they are structurally the same, hash pairs matched one to one and struct fields by name |
| `UniqueKey.SameIff` | builtin/collections_builtins.go:258-324 | Two values are structurally the same exactly if they have one form, in which a hash is the multiset of its pairs and a struct a map of its fields |
| `UniqueKey.PrefixFree` | builtin/collections_builtins.go:258-324 | No key is the beginning of another |
| `Unique.EqualTransitive` | object/equality.go:30-131 | Equality of values is transitive, though a NaN is not equal to itself |
| `Unique.EqualIff` | object/equality.go:30-131 | Values are equal exactly if neither holds a NaN and they are one up to equality: a hash as a map from its keys, a struct as a map from its fields, a function as its identity, the two zeros as one |
| `Unique.EqualReflexive` | object/equality.go:30-131 | A value equals itself exactly if it holds no NaN |
| `Unique.EqualSymmetric` | object/equality.go:30-131 | Equality of values is symmetric |
| `Unique.EqualIsSame` | object/equality.go:30-131 | On values with no function, no NaN and no negative zero it is being structurally the same, so what is equal is what has one key |
| `Unique.FunctionsAreOne` | object/equality.go:73-85 | A function counts as one with a function of its kind and identity and with nothing else |
| `Unique.HoldsFunctionIff` | object/closure_identity.go:55-95 | A value holds a function exactly if one is reached through elements, values of pairs and fields |
| `Unique.WriteKey` | builtin/collections_builtins.go:264-324 | The recursive writer writes that key, whatever order a hash's pairs or a struct's names come in |
| `Unique.Uniques` | builtin/collections_builtins.go:199-232 | The result is, in order, every element with no earlier one that counts as the same, which `Unique.DuplicatesIff` says without naming the comparison |
| `Unique.DuplicatesIff` | builtin/collections_builtins.go:199-232 | Two elements count as the same exactly if both hold a function and they are one up to equality without a NaN, or neither does and they have one form |
| `Unique.EachFunctionOnce` | builtin/collections_builtins.go:199-232 | The functions kept have distinct identities, and every function given is among them |
| `Unique.EveryElementKept` | builtin/collections_builtins.go:199-232 | Every element is among those kept or is one with one of them; each that is one with itself, as all without a function are, has its representative |
| `Unique.KeptDistinct` | builtin/collections_builtins.go:199-232 | No two of those kept count as the same |
| `Ast.EqualSymmetric` | ast/equal.go:27-218 | Equal is symmetric |
| `Ast.EqualTransitive` | ast/equal.go:27-218 | Equal is transitive |
| `Ast.EqualReflexive` | ast/equal.go:27-218 | A tree equals itself exactly if it has no NaN literal |
| `Ast.EqualIff` | ast/equal.go:27-218 | Two trees are equal exactly if they are one tree once tokens and braces are left out, with no NaN in it |
| `Ast.CopyIsEqual` | ast/clone.go:266-297 | A tree equals its clone exactly if no literal copied is NaN and, wherever a let's Name or a return's ReturnValue is taken from the list, the two were equal |
| `Ast.CopiedInPlace` | ast/clone.go:30-363 | A clone keeps a node's kind, literal, token and places and holds the clone of each child in its place; of a let's Name and a return's ReturnValue, the clone of the first of the list where there is one |
| `Ast.CopyOfWellFormed` | ast/clone.go:30-363 | A well-formed tree equals its clone |
| `AstNodes.Clone` | ast/clone.go:30-435 | The clone is made of nodes none of which existed before, each in one place but for what a let or a return holds twice, and stands for the copy of the tree, whatever the original shares |
| `AstModify.Modify` | ast/modify.go:15-200 | Under any modifier, a function of the node and of what it holds over children that are final, every node Modify goes to is left as the modifier leaves it, what it does not go into stands, and no node outside the tree is written to; with one that leaves alone what it is given every node is left as it was, nodes that stand in many places too |
| `AstLayout.WalksIff` | ast/modify.go:15-200 | Of a node laid out as its kind is, Modify goes into exactly the places of that kind's arm, listed kind by kind; into a return's ReturnValue only where it has no list |
| `AstLayout.EqualIsArms` | ast/equal.go:27-267 | Of trees laid out as their kinds are, Equal is what its arms compare: kind, literal, the length of the list a node holds, and the children in order, with no look at the places |
| `AstLayout.CopyLaidOut` | ast/clone.go:30-435 | The clone of a tree with each kind's own places, child types and literal has them too |
| `AstLayout.LaidIsWellTyped` | ast/modify.go:15-200 | Nodes that stand for such a tree hold in every place a child of the type Modify stores there |
| `AstModify.IdentityLeavesAlone` | ast/modify.go:15-200 | The identity is a modifier that leaves alone what it is given, in every tree |
| `AstModify.ModifyCopy` | ast/clone.go:3-12 | A template cloned and the clone rewritten under any modifier, which acts on nodes that did not exist when it was given: the clone is rewritten as Modify says, and the template stands as it did |
| `AstModify.UsedTwice` | ast/clone.go:3-12 | A template used twice under two modifiers: each use rewrites a copy of the template as it was to begin with, in nodes of its own, and the template stands |
| `AstModify.TwoArguments` | ast/clone.go:3-12 | At one template: used with two arguments in place of a name, each use holds its own argument and the template still holds the name |
| `Channels.RunKeeps` | builtin/channels.go:208-371 | In every interleaving, what was accepted is what was delivered followed by what is queued, each once; a send answers true exactly if its value was accepted; one close at most says it closed |
| `Channels.DeliveredInOrder` | builtin/channels.go:208-337 | In every interleaving values are delivered in the order they were accepted, each to one receive, at most a bufferful behind, and come from sends that answered true |
| `Channels.ClosedMeansDrained` | builtin/channels.go:282-337 | A receive says closed only at a step at which the channel is closed and nothing is queued, so all accepted by then had been delivered |
| `Channels.CanStepIff` | builtin/channels.go:208-337 | A call in progress has to wait exactly if it waits for ever on an open channel, a send on a full one, a receive on an empty one: a call that may not wait is never held up, and none is once the channel is closed |
| `Channels.SelectIs` | builtin/channels.go:235-337 | Which cases of its select a call can take: a value while there is room or there is one, the close once there has been one, the timer with a timeout, and the default without waiting while nothing else is ready |
| `Channels.GivesUpOnly` | builtin/channels.go:235-337 | A call gives up only at its own step: with a timeout when the timer fires; without waiting only on an open channel, and a send then only on a full one |
| `Channels.ForeverNeverGivesUp` | builtin/channels.go:208-337 | A call that waits for ever never gives up, in any continuation of any interleaving |
| `Channels.MeetsIff` | builtin/channels.go:208-337 | A value is passed straight over exactly if one call offers it, the other is looking for one, and one of the two is waiting |
| `Channels.LateIsRefused` | builtin/channels.go:208-234 | Once the channel is closed, a call that is not past its look at the close is never accepted |
| `Channels.AcceptedLaterIff` | builtin/channels.go:208-259 | In every state of every interleaving with the channel closed, a call not accepted yet is accepted in some continuation exactly if it is a send that had looked and found the channel open |
| `Channels.AcceptedAfterClose` | builtin/channels.go:247-259 | Such a send may be accepted even after a receive has said closed: a schedule in which it is |
| `ChannelRegistry.Registry.Register` | builtin/channels.go:94-106 | A handle never used before, refused exactly at 1024 open |
| `ChannelRegistry.Registry.Retire` | builtin/channels.go:115-124 | One fewer open; the handle closed stays addressable, no open one is dropped, and past 4096 the one closed longest ago goes |
| `ChannelRegistry.Registry.Close` | builtin/channels.go:357-371 | True for the first close of a channel, false for every other, an error for an unknown handle |
| `ChannelRegistry.Bounded` | builtin/channels.go:44-45 | Every open handle can be looked up, live is their number and at most 1024, and at most 4096 closed ones are kept |
| `ChannelRegistry.AddressableIff` | builtin/channels.go:94-124 | A handle can be looked up exactly if it is open or one of the last 4096 closed |
| `Mactime.RowReadsBack` | builtin/bodyfile_builtins.go:38-63 | A row reads back as its columns whatever separators its name holds |
| `Mactime.RowWritesBack` | builtin/bodyfile_builtins.go:38-63 | A line is a row exactly if it has ten separators or more, and its columns written out are the line |
| `Mactime.OneTimeline` | builtin/bodyfile_builtins.go:144-156 | Rows ordered by time, name and entry, with the same members, are one sequence |
| `Mactime.StableSort` | builtin/bodyfile_builtins.go:144-156 | Sorting by time and name only, stably, orders rows gathered entry by entry also by entry, so no two tie; which way time and name go, `Mactime.Timeline` says outright |
| `Mactime.Timeline` | builtin/bodyfile_builtins.go:99-157 | Whatever order each entry's map is gone through in, the result is the one timeline of the entries: oldest first, by name byte by byte where times are one; each positive time of each entry has one row, whose letters are m, a, c and b exactly where its modified, accessed, changed and born times are that time; and there is no other row |

## Left out

- CaseReads.EveryLedger: chains of fewer than 2^64 events and texts of fewer than 2^64 characters are supposed, as the eight-byte frames and the position do.
- CaseHistory.RunKeepsInv: uids are any texts here, so that those of review requests differ is supposed; it is proved of the uids the builtins compute in `CaseReads.EveryLedger`.
- CaseTaken.TakeInIff: that the exhibit filed under a name's uid bears that name is supposed; another there would be two names with one digest. The same of `CaseTaken.HandOnIff` and `CaseTaken.TakeOverIff`.
- CaseTaken.DecideIff: that the requests' uids differ is supposed, as in `CaseHistory.RunKeepsInv`.
- CaseStore.Store.Erasure: the header, key file and passphrase checks that precede an erasure are not in the ledger model; that the event names a record uid or a list of generations, which they guarantee, is checked instead.
- CaseStore.Store.CaseAttach: that a case key has been opened in the run, that the examiner of the case opened the ledger, and that nothing was defined before are not modelled; in a run whose key has been erased since, the source attaches the case to its ledger again, and in a new run only with a key file at hand.
- CaseStore.Store.EvidenceIntake: a file that cannot be measured is an empty digest, which is refused.
- CaseStore.Store.Perform: what an event records that no reader asks for (reasons, authorities, names, the time) is any further properties; the edges between nodes are not modelled.
- CaseStore.Store.AssignmentsRead: the recipients' side of the assignments is not modelled. Two people whose names have one digest would share a chain in the source; here they have one each and the clash is reported.
- CaseStore.Store.RetentionSet: white space around the argument is not trimmed, and of the forms of a time only those of section 5.6 of RFC 3339 are taken, with upper-case letters; Go's parser takes a few more.
- CaseRetention.RetentionRead: a hold's authority and reason are not modelled.
- CaseReview.ReviewsRead: that whoever decides is a reviewer other than whoever asked is checked by the writer and not by the reader, and is proved of every run.
- RecordErase.Eraser.Erase: a file replaced by another under its name while it is open is not modelled, only one written to in place; which headers the open key unwraps is a table, and the uid of the event is given.
- KeyFile.Directory.Rewrite: creating and removing a name takes effect at once; only file contents can be torn.
- KeyErase.Session.Erase: whether the key file read back is the one written is a step that may fail, and what the file says is a document; its format, its authentication and the passphrase are not modelled.
- Classified.FindClassified: the enum value, the cell and the return value are one kind of wrapper, and a hash's pairs and a struct's fields come in any order.
- CacheCopy.Copy: an object not modelled as one of the kinds a cache holds is refused, as in the source; that `cache_put` first refuses classified arguments is in `Classified` only.
- Cache.Store.Get: the store is used by one caller at a time, and a closed store is not looked up; under that the branch for an entry whose value has gone is unreachable. A zero expiry time standing for none is an absent one.
- Unique.Uniques: values are finite trees; an error that holds a function among its related values is not modelled, and values without a case of their own are equal if their type and render are.
- Unique.EqualIff: each key of a hash is there once, as in the source's map.
- Unique.EachFunctionOnce: a function is its kind, its render and its identity, and one identity is one function.
- UniqueKey.KeyIff: a float is the shortest spelling that tells it from every other float, so every NaN is one and the two zeros are two.
- AstModify.Modify: a modifier is a function of the node and what it holds, and is asked of each node once where it changes anything, since no node then stands in two places; it writes to the node it is given and to no other, and answers with a node there is. Asked about an absent child it answers with none. A required block that is absent, on which the source would fail, is an absent child here.
- Ast.CopyIsEqual: infinite float literals are not modelled.
- Channels.RunKeeps: values blocked in full channels are accepted in any order; how Go queues waiting senders is not modelled.
- Channels.AcceptedLaterIff: a send about to enter its select and one parked in it are one state. Go wakes a parked one with the close, so the continuation that accepts a send is one of a send about to enter.
- ChannelRegistry.Registry.Close: closing and retiring are one step.
- Mactime.Timeline: the columns copied from an entry are the entry's position; number parsing and time formatting are not modelled.
- Audit.AuditWalk: timestamps are rendered by any function, the same for writer and walker; JSON is not modelled.
- Storage, transactions and locks of the graph database: a chain is its nodes, and a commit is all or nothing.
- The keyed tags of class definitions, manifests, bundles and reports.
- Cryptography, key file formats and passphrases, beyond a key being present or erased.
- Argument checking, option parsing and the texts of refusals: a refusal is only that.
- int64 counters are supposed not to overflow; only the cache's time to live is modelled with its width.
- Parsers of executables, databases and archives, the compiler, both engines, the editor support and the command line.
