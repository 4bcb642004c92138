# A verified model of the ClassAd collection engine

This project models the parts of the ClassAd library and its collections that have to agree with
something simpler, and proves that they do.

**Columnar storage and scans.** A record is an *ad*: a finite map from attribute ids to literals or
expressions. `AdSchema` and `Row` encode an ad as an escape bitmap, fixed slots, a string region and
a cold tail; `ColBlock` transposes runs of such rows into a block; `StrDict` and `DictBlock` move
low-cardinality strings into dictionaries, compare by code and skip blocks; `RowGroups` cuts a
segment into blocks under a row cap and a byte budget; `Groups` adds the group blocks with their
membership bitmap and rank table, and `GroupReads` reads an attribute out of them. `Scan`, `Stats`,
`GroupStats` and `Presence` answer counts, aggregates, group-bys and presence questions from the
columns, with zone pruning and in-place narrowing, and are proved equal to the plain walk over the
visible records, as the columns show them; `Snapshots` is the versioned store below, where what is
visible at a number is the writes up to it, replayed. `RowGroups.BuiltWindow` closes the chain: what
the builder produces is what the scans assume.

**Columns as the authority.** `Native`, `NativeBuild` and `Project` strip the literal half of every
record into columns, splice it back and project from it, whatever numbers the reader's tables give;
`Splice` and `ProjectReads` say exactly which tables make splicing the identity and a projection
right on every record. `Layout`, `Reload`, `Persist`, `Section` and `Restore` store a segment's
columns and open them again in a process with other ids; `Reopened` and `GroupReopen` say what is
read there, and carry the scans over, and `NativeReopen` takes a columnar-native segment through the
same, with its dictionary and without one.

**Rewriting segments.** `Crash` is the file protocol of a rewrite and of its recovery, with a crash
possible before every file operation; `MergePolicy` is the policy loop above it; `Race` is the
reconcile step against concurrent deletes.

**Counting and deriving.** `GroupCounts` reads group counts off index postings and validates them by
their own total; `Ranges` relates the ranges it decides by to what the evaluator says; `GroupSchema`
and `Derive` derive the groups from a sample.

**Evaluating.** `Evaluator` is attribute evaluation with its in-progress marks, depth bound and
rebound current ad, unwinding included; `Folding` is three-valued evaluation and the constant folder
that must agree with it; `Depth` holds the two against the depth bound, and `Logic` says what the
scopes and the three-valued operators mean.

`Bytes`, `Wire`, `Floats`, `Values`, `Fields`, `Preds`, `Escapes` and `Folds` hold what these share.
The wire format of literals and entries is modelled byte by byte in `Wire`; an expression is carried
as its bytes, and `Nodes` writes one and finds its end.

`dafny verify dfyconfig.toml` checks everything.

## What turned out otherwise

Some laws one would expect of the code hold only under a condition, and some comments say other than
the code does. Where a law fails, one lemma gives an input that breaks it and another the exact
condition under which it holds; where a comment differs, the model follows the code.

- Cold tails are numbered by the segment's dictionary for the attributes it names, and by the
  attribute's own id otherwise. The escaped numeric read ignores the translation of a block that has
  one, so it is right on every ad exactly where the dictionary numbers the field by its own id, or
  does not name it and gives its id to no other attribute (`Values.EscapedReadExact`); otherwise a
  value is missed or another attribute's is read (`Values.ForeignKeyMissed`, `Values.AnotherRead`).
  Counts and aggregates are therefore those of the records as the columns show them
  (`Values.ColumnShown`, `Values.ShownExactly`).
- The translation of a freshly built block covers the schema's fields that the dictionary names. A
  schema field it does not name is looked for under its own id, which can be another attribute's
  number (`Fields.FreshTailRead`, `Fields.FieldMisread`), and an attribute outside the schema is not
  found (`Fields.LostAttribute`). Counting by presence stays right for such a field, because the
  escape classes answer for it (`RowGroups.BuiltSees`).
- A group's attributes are never base fields, so a freshly built segment finds them in tails only
  where the dictionary numbers them by their own ids (`GroupReads.FreshGroupRead`).
- A block of a columnar-native segment takes an expression left in the record for an absent
  attribute (`Presence.NativeVerdictExact`, `Presence.NativeCountsExpression`), so a presence count
  is the row count exactly where no such expression is visible, or one is visible elsewhere and both
  decline (`Presence.ScanPresenceCount`).
- The marker is dropped while a source is still pinned; a crash before the pin drains loads the
  source's records twice (`Crash.PinnedExact`, `Crash.PinnedTwice`). The comment at
  collections/archive_merge.go:151-153 argues otherwise.
- In recovery a marker is itself a name with the staging prefix, so the sweep for staged files drops
  a marker that the comment at collections/archive_merge.go:192 means to leave for the next open.
  The sources are kept, so nothing is lost (`Crash.FinishPendingMerges`).
- A merge pass never exceeds its byte budget, where the comment at
  collections/archive_mergepolicy.go:167-169 allows an overshoot by one segment
  (`MergePolicy.Archive.MergePass`).
- Reloading re-derives the layout with ties broken by id, so a reader that numbers two fields of
  equal kind and width the other way round reads them swapped (`Reload.LayoutKeptExactly`,
  `Reload.SwappedColumns`, `Reopened.SwappedColumnsRead`).
- After a reopening a schema field is read right, whatever the records, exactly where a name leads
  to its number in the tails, or its new id happens to be that number, or it has none there and its
  new id is no other attribute's (`Reopened.ReopenedReadExactly`). Beside a globally numbered
  segment only attributes found in some tail are stored with a name, so a field in no tail can
  answer with another attribute's value (`Reopened.UnlistedFieldReadsAnother`). A
  dictionary-numbered segment is stored without names: a columnar-native load takes them from the
  dictionary, a sidecar load has none, and its tail values are misread from the first reopening on,
  even by a process with the same ids (`Reopened.SidecarMisreads`).
- A reopened segment no longer knows its tail ids, so rewriting its sidecar writes no names at all,
  and the next reopening reads a tail value right exactly where its twice renumbered id is the
  number first stored (`Reopened.SecondReopenExactly`, `Reopened.SecondReopenLoses`).
- Reopened from a sidecar, the names reach the base blocks only, so an attribute in the tail of a
  group's block is looked for under its new id (`GroupReopen.ReopenedGroupExactly`,
  `GroupReopen.GroupBlockMisread`). The comment at collections/colblock.go:928-929 means group tails
  to be read in the space they were written in.
- A columnar-native segment without a dictionary is reopened in the same way, and there the columns
  are the only copy. Splicing gives every record back whole exactly where each group attribute that
  some tail holds is looked for under the number it was stored with (`Splice.SpliceExactly`), which
  is where the next process gives it the id it had (`NativeReopen.GlobalSplicesExactly`); otherwise
  the attribute is gone from the record (`Splice.FitLost`, `NativeReopen.GlobalGroupLost`). With a
  dictionary every record comes back (`NativeReopen.DictSplices`).
- A projected attribute the segment has no number for is looked for under its own id, which can be
  another's number. A projection is right on every record exactly where each wanted attribute is
  looked for where it is, or under the number of none that reaches a base tail
  (`ProjectReads.ProjectExactly`). With a dictionary the other attribute comes back, unasked for or
  twice (`NativeReopen.DictProjectsExactly`, `NativeReopen.DictGivesAnother`); without one its value
  comes back under the wanted attribute's name (`NativeReopen.GlobalProjectsExactly`,
  `NativeReopen.GlobalGivesAnother`). The comment at collections/colproject.go:85-91 has the
  projection declined when a translation is missing, which it is for base fields only
  (`Project.BaseColumns`).
- A delete that is on disk in the source of a rewrite is lost by a crash exactly where the intent is
  recorded, the delete landed after its record was copied, and the output's number has not reached
  the disk since the swap (`Race.RevivedExactly`, `Race.RevivedByCrash`).
- Widening sorts in the candidates' own arrays; a widening that is not adopted can leave the exact
  candidates overlapping (`GroupSchema.FallbackApartExactly`, `Derive.SpoiledRun`).
- A constrained group count declines or not depending on the order of a record's attributes
  (`GroupCounts.ReadRow`, `GroupCounts.OrderMatters`).
- An equality constraint on integers beyond 2^53 counts records the evaluator rejects, and a
  condition on an attribute held as an expression leaves out records the evaluator accepts
  (`Ranges.CountedExactly`, `Ranges.MergedEquality`, `Ranges.ExpressionMissed`). A constraint nested
  past the evaluator's depth bound is an error to it and is counted all the same, over strict
  attributes exactly where it does not fit within the bound (`Depth.CountedInExactly`,
  `Depth.ParensDeep`).
- A short circuit can step over a reference cycle, so that a reachable cycle means a cyclic failure
  only over strict operators (`Evaluator.CyclicExactly`, `Evaluator.CycleNotReached`).
- Constant folding drops a defined left side of `?:` and the coercion of `x && true`
  (`Folding.NodeExactly`, `Folding.ElvisLosesValue`, `Folding.AndTrueLosesCoercion`), and puts the
  time in place of CurrentTime even for an ad that defines it (`Depth.NowExactly`,
  `Folding.NowLosesValue`), where classad/currenttime.go:9-15 says the ad's value wins in both
  places.
- The evaluator fails at 2000 levels and the folder has no such bound, so an expression that is an
  error as written can have a value when folded: 2000 pairs of parentheses around 1
  (`Depth.ParensPart`). Folding keeps every outcome short of the bound (`Depth.FoldKept`), and over
  strict operators an expression and its folded form come to the same exactly where the expression
  fits within the bound or its folded form does not either (`Depth.FoldSameExactly`).

## Model

| member | source | states |
|---|---|---|
| `AdSchema.IntSlotExact` | collections/adschema.go:81-109 | a value written to an integer slot of 1, 2, 4 or 6 bytes and read back with the slot's signedness is itself if and only if it fits the width; at 8 bytes every int64 is |
| `AdSchema.PutIntLE` | collections/adschema.go:254-259 | exactly the slot's bytes change, to the little-endian two's complement of the value |
| `AdSchema.ReadIntLE` | collections/adschema.go:261-274 | the loop's result is the slot's integer, sign-extended or not as the field says |
| `Row.StorableExactly` | collections/adschema.go:316-345 | a value goes into its slot exactly where it is a literal of the field's kind that the slot gives back, negatives kept out of unsigned slots |
| `Row.EncodeExcept` | collections/adschema.go:316-373 | the bytes written are the row form of the ad without its skipped attributes: escape bits exactly for fields with no storable value, every stored literal in its slot, bit or string, and every other attribute in the cold tail under its key |
| `Row.RowRoundTrip` | collections/adschema.go:385-437 | decoding any row the encoder wrote succeeds and yields its slots in field order and then its cold tail |
| `Row.RowMeansAd` | collections/adschema.go:316-437 | encode then decode is the identity: each attribute of the ad comes back exactly once, with its node |
| `Row.HalvesPartition` | collections/adschema.go:316-373 | slots and cold tail together hold every attribute, and no attribute is in both |
| `Nodes.TreeSkipped` | collections/wire/accessor.go:611-694 | the skip finds the end of an expression written by the encoder, whatever follows, if and only if it nests within the bound |
| `Nodes.TreeIsNode` | collections/wire/encode.go:255-356 | so a written expression can be an attribute value exactly where it is no literal and nests within the bound |
| `ColBlock.EncodeColumnarBlock` | collections/colblock.go:319-376 | the block holds exactly the given rows, in order: bitsets, transposed numeric columns, split hot and cold as the layout says, string and cold-tail streams with their offsets |
| `ColBlock.LayoutColumnar` | collections/colblock.go:290-305 | the numeric fields are split into hot and cold, each in field order |
| `ColBlock.HotStable` | collections/colblock.go:286-305 | laying out again from the hot fields that came out changes nothing, so storing them is enough |
| `ColBlock.ColumnStarts` | collections/colblock.go:306-317 | every column starts where the ones before it end |
| `ColBlock.Reconstruct` | collections/colblock.go:776-814 | the bytes rebuilt for record k are the row form that went in |
| `ColBlock.SlotPosDisjoint` | collections/colblock.go:290-317 | two different (column, record) slots of a column region never overlap |
| `StrDict.CompareStringsFold` | classad/evaluator.go:1147-1169 | the loop compares byte by byte up to ASCII case, the shorter string first |
| `StrDict.FoldOrder` | classad/evaluator.go:1135-1169 | that comparison is antisymmetric and transitive, and zero on equal strings |
| `StrDict.FoldExactly` | classad/evaluator.go:1135-1169 | two strings compare equal exactly where they are the same letter by letter up to ASCII case, and otherwise as their lower-case forms |
| `StrDict.SortDictFold` | collections/strdict.go:200-208 | the in-place insertion sort leaves the values sorted by case-blind order and then by bytes |
| `StrDict.DistinctFold` | collections/strdict.go:183-198 | a dictionary is exactly the column's distinct values, strictly in that order |
| `StrDict.WorthwhileExactly` | collections/strdict.go:174-176 | a field is given a dictionary exactly where it has a value, a value occurs twice on average and two bytes hold every code |
| `StrDict.DictRange` | collections/strdict.go:329-342 | two binary searches give the codes equal to the literal up to case; every code before them is below it and every code after above |
| `StrDict.CompareByCode` | collections/strdict.go:314-328 | each of the six relational operators on the strings is a range test on the codes |
| `StrDict.ProbePrunes` | collections/strdict.go:366-410 | a dictionary rules a conjunct out if and only if none of its values satisfies it: order, equality up to case, or byte identity |
| `StrDict.PruneExact` | collections/strdict.go:344-360 | over a column with no escapes that is if and only if no record satisfies it |
| `StrDict.DictEntries` | collections/strdict.go:235-259 | the entries are read back exactly as the region holds them, or not at all |
| `StrDict.PutCodes` | collections/strdict.go:147-160 | every record with a value has a code, of one byte or two, of just that value |
| `StrDict.AddDict` | collections/strdict.go:122-163 | a field's dictionary and codes go to the end of both regions, and it is marked complete exactly when no record escaped it |
| `StrDict.DictStringExact` | collections/strdict.go:235-275 | entry at code is the record's own value |
| `DictBlock.WalkStrings` | collections/strdict.go:283-300 | a walk over a row's strings finds every value, and what it keeps is the region without the fields a dictionary owns |
| `DictBlock.BuildStrDicts` | collections/strdict.go:83-171 | a string field gets a dictionary if and only if its distinct values are few enough, and then that dictionary is exact |
| `DictBlock.EncodeDictBlock` | collections/colblock.go:319-376 | the block with dictionaries is the plain block with the owned fields taken out of its string stream |
| `DictBlock.ReadStringExact` | collections/colscope.go:245-301 | whichever side holds it, the string read is the ad's |
| `DictBlock.AppendStrings` | collections/colblock.go:719-753 | splicing both sides back in field order gives the original string region |
| `DictBlock.DictPrunes` | collections/strdict.go:348-360 | no record of a skipped block can satisfy every conjunct; and a block is skipped if and only if some conjunct has a complete dictionary and no record of the block can satisfy it |
| `Values.TailLookup` | collections/colblock.go:857-880 | walking a cold tail for an id finds its first entry, or nothing when the tail has none or ends early |
| `Values.TailReadExactly` | collections/colblock.go:857-880 | looking an attribute up in cold tails under a number is right on every ad if and only if that is its number, or it has none and the number is no other attribute's |
| `Values.ColumnShown` | collections/colstatsmulti.go:105-120 | for every block and key, the column reader finds in each record what its slot holds, or what its tail holds under the field's id untranslated: the ad as shown |
| `Values.ColumnAgrees` | collections/colstatsmulti.go:105-120 | so column and ad agree on every record that did not escape the field, or whose tail keys it by its own id and nothing else there |
| `Floats.Landmarks` | collections/colstatsmulti.go:105-120 | zero, one, the infinities and the patterns that are no number are where IEEE 754 has them, and the top bit is the sign |
| `Floats.NextUp` | collections/colstatsmulti.go:105-120 | each step up the finite patterns is one unit in the last place |
| `Floats.BitsOrdered` | collections/colstatsmulti.go:105-120 | so non-negative patterns are in the order of their values |
| `Floats.RoundNearest` | collections/colagg.go:264-280 | an integer becomes the nearest float64, of two equally near the even one, and itself below 2^53 |
| `Floats.CompareLaws` | collections/colscan.go:692-714 | the six comparisons are one order with the infinities at its ends, different is exactly not equal, and a NaN is only different |
| `Values.EscapedReadExact` | collections/colblock.go:886-908 | the escaped-value read, which ignores id translation, is right on every ad if and only if the dictionary numbers the field by its own id, or does not name it and gives its id to no other attribute |
| `Values.ForeignKeyMissed` | collections/colblock.go:886-908 | a field numbered otherwise: a one-attribute ad whose escaped value the reader misses |
| `Values.AnotherRead` | collections/colblock.go:886-908 | an unnamed field whose id is another's number: an ad without the field that answers with the other's value |
| `Values.ShownExactly` | collections/colblock.go:886-908 | so a field is shown as it is on every ad under exactly that condition |
| `Values.TypedLoadIsRead` | collections/colblock.go:618-652 | the typed batch loads give the same integer as the byte loop, for every slot width and signedness |
| `Preds.PruneSound` | collections/colblock.go:549-563 | a block a zone rules out for a field holds no record satisfying that field's predicate |
| `Preds.ZoneTight` | collections/archive.go:570-590 | a zone rules a comparison out if and only if no value between its bounds satisfies it |
| `Preds.PassedOverExactly` | collections/colblock.go:549-563 | a block is passed over on a field exactly where it has a zone without escapes that rules out one of the comparisons |
| `Preds.ZoneMayMatchIn` | collections/archive.go:570-578 | a list of values is ruled out if and only if no value the zone covers equals any of them |
| `Preds.PredsOnFields` | collections/colmulti.go:51-101 | accepted exactly when the query is native, the probes are all it says, there are some and each is on a numeric field; the result has one predicate a field and holds of exactly the ads all probes hold of |
| `Preds.FieldZone` | collections/colblock.go:511-545 | the zone is marked escaped exactly when some record escaped the field, otherwise its bounds cover every value and are attained |
| `Preds.NumericZones` | collections/colblock.go:511-545 | every numeric field of a non-empty block, and no other, gets an exact zone |
| `Scan.TestAd` | collections/colmulti.go:271-304 | testing an ad attribute by attribute with an early exit decides the whole conjunction |
| `Scan.BruteCountMulti` | collections/colmulti.go:271-304 | the row walk counts the visible records satisfying every predicate |
| `Scan.NarrowByField` | collections/colmulti.go:207-262 | one in-place pass leaves set exactly the candidates whose record, as shown, satisfies the field's predicate, and live is the number of bits still set |
| `Scan.NarrowBlock` | collections/colmulti.go:109-175 | after visibility and one pass per predicate keep marks exactly the visible records of the block that match as shown |
| `Scan.CountBlock` | collections/colmulti.go:109-186 | a block's live count is its number of visible records that match as shown |
| `Scan.CountSegment` | collections/colmulti.go:109-175 | a sealed segment's columnar count is the row count of its records as shown, blocks ruled out by their zones included |
| `Scan.ScanCountMulti` | collections/colmulti.go:109-175 | for every collection of shards, segments, dictionaries and snapshots the columnar count is the row count of the records as the columns show them, and the row count itself where every predicated field is looked for where the tails have it, or each record has it in its slot or has no number for it and none under its id |
| `Snapshots.WriteKeeps` | collections/shard.go:283-361 | a write keeps every snapshot exact: those numbered before it as they were, those from it on with the write |
| `Snapshots.SnapshotCount` | collections/colmulti.go:271-304 | at every snapshot the count is the number of records that the writes up to it leave and the predicates accept |
| `Snapshots.SkipSound` | collections/segment.go:596-614 | a segment passed over by its counters has nothing the snapshot shows |
| `Snapshots.SkipExactly` | collections/segment.go:596-614 | and it is passed over exactly where all of it was born later or all of it was replaced by then |
| `Snapshots.WindowsShow` | collections/shard.go:660-678 | windows over the segments a snapshot opens count what the writes up to it leave |
| `Snapshots.CollectionCount` | collections/colmulti.go:109-304 | over all shards the row count is the sum of what their writes leave at their snapshots |
| `Snapshots.Table.Supersede` | collections/shard.go:265-308 | the current version of a key, in the open segment or a sealed one, is stamped, and found exactly where the writes leave one |
| `Snapshots.Table.Apply` | collections/shard.go:283-361 | a put without room and a delete of nothing change nothing; any other write is replayed by every later snapshot, and the live count follows |
| `Snapshots.Table.ApplyBatch` | collections/commit.go:153-170 | a batch commits at one fresh number and changes no earlier snapshot |
| `Snapshots.Table.Snapshot` | collections/shard.go:660-678 | the segments a snapshot opens show exactly what the writes up to it leave |
| `Snapshots.Table.GetAt` | collections/txn.go:46-73 | the version read at a snapshot is the last one written up to it, or none after a delete |
| `Fields.FieldShown` | collections/colscope.go:153-210 | a field read from any block under any translation, whatever its kind, is what the record's slot holds, or what its tail holds under the translated id |
| `Fields.FieldReadExactly` | collections/colblock.go:857-880 | that is the ad's own node or its absence on every ad if and only if the translation gives the field's number, or the dictionary does not name the field and the translation gives no other's |
| `Fields.FieldMisread` | collections/colblock.go:857-880 | otherwise a one-attribute ad is misread |
| `Fields.FieldReadExact` | collections/colscope.go:153-210 | in particular where the tail numbers the field as translated, and no other attribute of the record |
| `Fields.FreshTailRead` | collections/colblock.go:413-424 | reading the tail of a freshly built block is right for an attribute on every ad if and only if the dictionary names it and it is a schema field or numbered by its own id, or the dictionary does not name it and gives its id to no other attribute |
| `Fields.LostAttribute` | collections/colblock.go:857-880 | an attribute outside the schema that the dictionary renumbers is not found in a one-attribute ad |
| `Groups.BuildRank` | collections/colgroupblock.go:123-133 | entry i of the rank table is the number of members among the first 64i records |
| `Groups.Index` | collections/colgroupblock.go:75-90 | the prefix table, whole bytes and masked last byte give a member's rank, and nothing for any other record |
| `Groups.RankInjective` | collections/colgroupblock.go:75-90 | two members of equal rank are the same record |
| `Groups.RankOnto` | collections/colgroupblock.go:75-90 | every rank below the member count is some member's |
| `Groups.GroupSkipSet` | collections/colgroupblock.go:196-214 | the attributes left out of a base row are exactly the members of the groups the record holds wholly |
| `Groups.BuildGroupBlock` | collections/colgroupblock.go:157-189 | bitmap, exceptions and member block classify every record exactly: whole member, partial holder, or neither |
| `Groups.IsException` | collections/colgroupblock.go:95-112 | the binary search decides membership in the ascending exception list |
| `Groups.MemberRow` | collections/colgroupblock.go:157-189 | a record has a row in the group's block if and only if it holds the whole group, and the row at its rank is its own |
| `Groups.ExceptionRead` | collections/colblock.go:445-457 | a partial holder's group attributes are all still in the base cold tail |
| `GroupReads.ResolveGroup` | collections/colgroupread.go:85-110 | for any dictionary and translations, reading a group attribute gives the group row's field for a whole member, the base tail's entry under the translated id for an exception, and nothing otherwise; where both translations give the attribute's own number it is what the ad holds |
| `GroupReads.GroupReadExactly` | collections/colgroupread.go:85-110 | that is right on every record if and only if both numbers looked for are the attribute's own wherever a record can have it, or it has none and the base tails have no other attribute under the number |
| `GroupReads.WholeMissed` | collections/colgroupread.go:85-110 | looked for under another number in the group's block: a record with the whole group is misread |
| `GroupReads.PartMissed` | collections/colgroupread.go:85-110 | looked for under another number in the base tail: a record with one member of several is misread |
| `GroupReads.AnotherTaken` | collections/colgroupread.go:85-110 | an attribute without a number, looked for under another's: a record with part of the group answers with the other attribute |
| `GroupReads.FreshGroupRead` | collections/colblock.go:413-424 | in a freshly built segment a group attribute the dictionary names is found on every record if and only if it is numbered by its own id |
| `Escapes.EscapeIsMissing` | collections/colescclass.go:56-81 | with classes an escape is always judged, and is called missing exactly when the field is not in the record |
| `Escapes.AbsentProves` | collections/colescclass.go:173-178 | a field called absent from a block is in no record of it |
| `Escapes.ColdIsPresent` | collections/colescclass.go:87-130 | an escaped field is in the tail under a number of its own if and only if the record carries it, whether or not the dictionary names the field |
| `Escapes.ClassifyEscapes` | collections/colescclass.go:87-168 | every field's class, the listed exceptional records and the absence bit are exact, fields the dictionary does not name included |
| `RowGroups.PendingWithin` | collections/colblock.go:175-195 | the group being filled never passes the row cap, nor the byte budget by as much as its last two records |
| `RowGroups.SealKeeps` | collections/colblock.go:151-195 | a seal takes a non-empty prefix, aligned if it backs off, within row cap and budget and no runt, and what is carried is a pending group again |
| `RowGroups.SealAtExactly` | collections/colblock.go:151-195 | a group is sealed whole unless it is over the budget and the aligned rows are fewer and at least half of it; then exactly those are |
| `RowGroups.ColdToField` | collections/colblock.go:413-424 | the map from tail numbers to fields has exactly the fields the dictionary names |
| `RowGroups.SealBlock` | collections/colblock.go:319-376 | the sealed block holds the run's rows with exact zones and exact escape classes |
| `RowGroups.BuildGroupBlocks` | collections/colgroupblock.go:157-189 | one exact selection a group, over the same run of records |
| `RowGroups.SealGroup` | collections/colblock.go:466-495 | base block and group selections are cut at the same point, and the records past it are carried in order |
| `RowGroups.AddRecord` | collections/colblock.go:440-495 | the building state stays exact when a record is added, sealed or not |
| `RowGroups.FinishBuild` | collections/colblock.go:499-516 | the short final group is sealed too, and an empty segment still gets one empty block |
| `RowGroups.Build` | collections/colblock.go:408-506 | every live record of the arena is in exactly one block, in order; every block keeps the cap and the budget bound, and every block but the last is at the cap or holds half the budget |
| `RowGroups.BuiltWindow` | collections/colblock.go:408-506 | a segment so built, over whole records or over their literal halves, meets what every scan theorem here assumes of a segment |
| `RowGroups.BuiltSees` | collections/colblock.go:408-506 | and its translation and classes are what counting by presence needs, for every attribute |
| `Stats.StatsMean` | collections/colstatsmulti.go:26-56 | over any records the count and the kinds seen are those of their numbers, Sum is the numbers added from zero in scan order with the machine's addition, the integer sum is the exact total modulo 2^64, and the range bounds every comparable value and is attained |
| `Stats.ExactSum` | collections/colstatsmulti.go:33 | where no addition rounds that sum is the real total |
| `Stats.ReportMeans` | collections/colstatsmulti.go:51-56 | what is reported of no numbers is zero throughout, and otherwise those values |
| `Stats.FusedPreds` | collections/colstatsmulti.go:143-215 | narrowing on the other columns and testing the aggregated value where it is read accept the same records as the whole conjunction |
| `Stats.StatsFused` | collections/colstatsmulti.go:190-220 | the fused pass is the fold over the block's matching visible records as shown |
| `Stats.StatsNarrowed` | collections/colstatsmulti.go:221-256 | narrowing first and reading survivors is the same fold |
| `Stats.BruteStats` | collections/colstatsmulti.go:294-331 | the row walk is the fold over the window's matching visible records |
| `Stats.StatsSegment` | collections/colstatsmulti.go:176-256 | a sealed segment's aggregate is the fold over its matching visible records as shown, pruned blocks included |
| `Stats.ScanStatsMulti` | collections/colstatsmulti.go:143-261 | the columnar aggregate of any collection is the fold in scan order over all matching visible records as shown, and over the records themselves where every field involved is read as it is |
| `Folds.ShardsMatchCount` | collections/colmulti.go:109-175 | the records an aggregate folds over are as many as the count scan returns |
| `Folds.ShardsSame` | collections/colstatsmulti.go:143-261 | where every attribute involved is read as it is, the records matched as shown and the records matched have the same values in the same order |
| `GroupStats.DeclinesExactly` | collections/colgroupcount.go:293-404 | the scan declines if and only if some matching record's group value is not an int or a real |
| `GroupStats.GroupsExactly` | collections/colgroupcount.go:293-404 | there is a group for exactly the values some matching record carries, and its count and every aggregate are those of the records carrying it |
| `GroupStats.CountsSum` | collections/colgroupcount.go:293-404 | the groups' counts sum to the number of matching records |
| `GroupStats.GroupSurvivors` | collections/colgroupcount.go:344-397 | reading group and aggregate columns for a block's survivors is the grouped fold over its matching records as shown, or declined exactly when that is |
| `GroupStats.GroupBlockScan` | collections/colgroupcount.go:325-398 | the same with the block pruned by predicate columns only |
| `GroupStats.BruteGroupStats` | collections/colgroupcount.go:431-487 | the row walk is the same grouped fold with the same declining |
| `GroupStats.ScanGroupStats` | collections/colgroupcount.go:293-404 | the grouped columnar scan of any collection is the grouped fold over all matching visible records as shown, or declined exactly when it is, and over the records themselves where every field involved is read as it is |
| `GroupStats.CountsAgree` | collections/colgroupcount.go:293-404 | the groups' counts sum to the columnar count for the same predicates |
| `Presence.TallyMeans` | collections/colpresence.go:213-241 | the tally counts the records wanted, and gives up exactly when some record holds an expression |
| `Presence.CountExactly` | collections/colpresence.go:213-241 | that count is of the records where the attribute is missing or the literal undefined, or of the others |
| `Presence.RecordVerdict` | collections/colpresence.go:171-200 | slot, escape class and cold tail decide defined, undefined or unknown; the tail is asked under the translated id, and only where the class does not say missing |
| `Presence.SeenExact` | collections/colpresence.go:171-200 | that is the verdict on the record's own attribute where the tail is asked for the field's own number, or the field has none and the block has its classes |
| `Presence.VisibleVerdict` | collections/colpresence.go:160-200 | what a block says of a visible record is that verdict, with or without the whole-block shortcut for an absent field |
| `Presence.PresenceBlock` | collections/colpresence.go:145-203 | a block's tally is the tally of its visible records so judged |
| `Presence.BrutePresence` | collections/colpresence.go:213-241 | the row walk tallies exactly the visible records |
| `Presence.ScanPresenceCount` | collections/colpresence.go:112-208 | declined if and only if some visible record, as its columns show it, holds the attribute as an expression; otherwise the count over the records as shown. Where the columns are asked for the right number, it declines if and only if a visible record outside literal-only columns holds the attribute as an expression, and is the row walk's answer if and only if one does or none is inside them |
| `Presence.SeenAgrees` | collections/colpresence.go:112-208 | tallying the records as the columns show them and tallying the rows agree under exactly that condition |
| `Presence.NativeVerdictExact` | collections/colscope.go:193-200 | over the half a columnar-native block holds, the verdict is the record's own if and only if the attribute is not an expression |
| `Presence.NativeCountsExpression` | collections/colscope.go:193-200 | an expression left in the record reads as undefined from such a block |
| `Native.KeepAttrs` | collections/colnative_build.go:259-276 | the half kept for the columns is exactly the literal attributes, in order |
| `Native.StripSchemaAttrs` | collections/colnative_build.go:234-256 | the half left in the record is exactly the rest, in order |
| `Native.BaseHalf` | collections/colnative.go:223-306 | a base row read back and re-keyed is the ad it was built from, each attribute once |
| `Native.BlockIndexAndLocal` | collections/colnative.go:498-510 | the block walk finds the block holding record k and its place there, or reports that there is none |
| `Native.AppendGroupValues` | collections/colnative.go:385-453 | the group columns yield, of the groups the record holds wholly, the wanted attributes as the reader's numbers find them, whatever those are; never refused for a record whose attributes a dictionary names |
| `Native.GroupsSupply` | collections/colnative.go:385-453 | they are each such attribute exactly once, under the record's key |
| `Native.PartsAnswer` | collections/colnative.go:223-306 | remnant, base columns and group columns together hold each wanted attribute exactly once |
| `Native.SpliceInto` | collections/colnative.go:223-306 | whatever numbers the reader looks for, the result is the remnant, the record's own base attributes and what its group columns show; where those are found as they are, the original attributes, each exactly once |
| `Splice.SpliceExactly` | collections/colnative.go:223-453 | strip and splice is the identity on every record a segment can hold if and only if every group attribute that can be in the tail of its group's block is looked for there under its own number |
| `Splice.FitLost` | collections/colnative.go:385-453 | otherwise a record with the whole group, that one member in no slot, comes back without the attribute |
| `NativeBuild.ColumnarizeSegment` | collections/colnative_build.go:70-157 | both passes keep every live record in order; each remnant is the record's expression half and the columns are exact for the literal half; declined exactly when there is no record |
| `NativeBuild.BuiltNative` | collections/colnative_build.go:70-92 | blocks and selections as built are what a columnar-native read relies on |
| `Project.ProjectFromColumns` | collections/colproject.go:92-262 | declined exactly where a dictionary does not name a wanted base field; otherwise the narrowed record, the wanted columns as found and the tail entries under the numbers they are stored by; where everything wanted is found as it is, each wanted attribute exactly once and, for an id-keyed record, nothing else |
| `Project.BaseColumns` | collections/colproject.go:139-216 | the base half of that, for any translation: declined or not, and which entries under which keys |
| `ProjectReads.ProjectExactly` | collections/colproject.go:92-230 | a projection that is not declined is right on every record the segment can hold if and only if every wanted attribute with a number is looked for under it, unless it is a group's sole member, and every other under the number of none that reaches a base tail |
| `ProjectReads.WantedMissed` | collections/colproject.go:139-216 | an attribute looked for under another number than its own does not come back |
| `ProjectReads.AnotherGiven` | collections/colproject.go:186-216 | one looked for under another's number brings the other's value back under the wanted key, or with a dictionary the other attribute itself, unasked for or twice |
| `ProjectReads.WantedLost` | collections/colproject.go:218-228 | a wanted group attribute looked for under another number in its group's block does not come back |
| `Project.ProjectionAgrees` | collections/colproject.go:92-230 | for every projected attribute it answers as full reassembly does |
| `Layout.SortSorts` | collections/adschema.go:214-249 | the layout order is a sorted permutation of the fields |
| `Layout.SortedAs` | collections/adschema.go:214-249 | fields lie as booleans, integers, reals, strings, the narrower first, then by id |
| `Layout.SortFixed` | collections/adschema.go:214-249 | fields stay where they are if and only if they already were in layout order |
| `Layout.LayoutSchema` | collections/adschema.go:214-249 | the schema laid out is valid: slots tile the fixed part behind the bool bitset, bits and escape bits are handed out once, and the fields are the sorted ones |
| `Reload.LayoutKeptExactly` | collections/colpersist.go:150-193 | re-deriving the layout under the reader's ids puts every field where the bytes have it if and only if the reader's numbering keeps the order among fields of equal kind and width |
| `Reload.SwappedColumns` | collections/colpersist.go:169-193 | two one-byte ints numbered the other way round trade places in the layout |
| `Reload.RowReloads` | collections/colpersist.go:150-193 | under a kept layout a stored row is the row of the same ad under the reader's ids |
| `Reload.BlockReloads` | collections/colpersist.go:354-450 | and a stored block is the block of the same ads under the reader's ids |
| `Persist.PayloadTrips` | collections/colpersist.go:199-350 | reading back what was written gives the same payload: schema, tail names, hot fields, blocks with their zones, escape classes and string dictionaries, offsets, group selections |
| `Persist.CheckMeta` | collections/colpersist.go:373-441 | what a block says per field is accepted exactly when every index, class count, listed record and code width is within the schema and the block |
| `Persist.CheckSel` | collections/colpersist.go:542-570 | a selection is accepted exactly when its bitmap length, population and member block agree with the base block |
| `Persist.UnmarshalColSegment` | collections/colpersist.go:456-578 | the payload is returned exactly when the bytes parse, every record and member count agrees and everything said per field is in range, and is refused otherwise |
| `Persist.RankInBlock` | collections/colpersist.go:555-569 | once accepted, a member's rank always addresses a row of its group's block |
| `Restore.FieldReturns` | collections/colpersist.go:149-193 | a written field comes back with its kind, width and sign under the reader's id |
| `Restore.LoadFields` | collections/colpersist.go:169-193 | the fields are read under the reader's ids, or refused for a kind no writer has |
| `Restore.LoadNames` | collections/colpersist.go:468-485 | of the two translations built from the stored names, one leads from an id to the number of the last name interned to it, the other from a number back to the id of the last name it was stored with; what no name covers is left as it is |
| `Restore.NamesLead` | collections/colpersist.go:205-237 | it leads from the reader's id to the tail's for the attributes listed, and for no others |
| `Restore.SegIdRemap` | collections/colnative.go:529-546 | the translations from a dictionary are those of the list of all it names, by number |
| `Restore.CollectColdIds` | collections/colblock.go:938-953 | the ids a fresh block notes are exactly those its tails hold |
| `Restore.StoreBlock` | collections/colpersist.go:269-350 | streams, offsets, zones, escape classes and dictionaries are written, maps in ascending key order but for the zones |
| `Restore.RestoreBlock` | collections/colpersist.go:354-446 | and read back, with hot and cold columns laid out anew |
| `Restore.BlockReturns` | collections/colpersist.go:269-446 | under a kept layout what comes back is the block itself, its zones, classes and dictionaries included, under the reader's schema |
| `Restore.ScanBlockReloads` | collections/colpersist.go:354-446 | such a block holds the same ads under the reader's ids, with exact zones and classes |
| `Restore.MarshalColSegment` | collections/colpersist.go:199-276 | what is written of a segment: its fields by name, names for the noted tail ids by ascending id, or none where a dictionary travels with it, its hot fields, blocks and offsets |
| `Restore.WrittenConsistent` | collections/colpersist.go:199-350 | what is written of a segment passes every check of the reader |
| `Restore.Reopen` | collections/colpersist.go:456-578 | end to end: the bytes written are never refused; the schema is laid out under the reader's ids, in the writer's layout if and only if they keep the order among fields of equal kind and width; then blocks and dictionaries are the writer's |
| `Restore.AttachDict` | collections/colnative.go:118-131 | a columnar-native load replaces the absent names by all of the dictionary's |
| `Reopened.ReopenedRead` | collections/colpersist.go:456-522 | one field of one record of a reopened block is what the writer's row has in its slot, or what its tail has under the stored number where a name leads to it and under the reader's own number otherwise |
| `Reopened.ReopenedReadExactly` | collections/colpersist.go:199-522 | that is right for every record the segment could hold if and only if a name leads to the field's number, or the reader's own number is that number, or the field has none and the reader's is no other attribute's |
| `Reopened.UnlistedFieldReadsAnother` | collections/colpersist.go:205-237 | a field in no tail of a globally numbered segment is given another attribute's value by a record without it |
| `Reopened.SidecarMisreads` | collections/sealed_index.go:63-74 | a dictionary-numbered segment opened from its sidecar loses a tail value and answers with another attribute's, under the same ids; under the dictionary's names the value is found |
| `Reopened.SecondReopenExactly` | collections/colscan.go:400-414 | a reopened segment written again writes no names; a field read after the next reopening is right for every record if and only if its twice renumbered id is the number first stored, or it has none and that is no other attribute's |
| `Reopened.SecondReopenLoses` | collections/colscan.go:400-414 | a tail value read correctly after one reopening is undefined after the second |
| `Reopened.SwappedColumnsRead` | collections/colpersist.go:169-193 | two one-byte ints numbered the other way round are each read from the other's column |
| `Reopened.ReopenedWindow` | collections/colpersist.go:456-578 | where the new ids keep the layout, a reopened window holds its records under them and meets what every scan theorem here assumes |
| `Reopened.PresenceAfter` | collections/colpresence.go:112-208 | counting by presence over it asks the right number if and only if reading the field is right, or the field has no number and the blocks have their classes |
| `Reopened.ReopenedString` | collections/colpersist.go:417-441 | a string read from a reopened block, dictionary or not, is the string read from the block written |
| `GroupReopen.StoreGroup` | collections/colpersist.go:251-275 | a group's fields are written by name, and each selection with its bitmap, exceptions and rows |
| `GroupReopen.OpenGroup` | collections/colpersist.go:523-578 | and read back: the schema under the reader's ids, the members its fields, and every selection as written where the layout is kept |
| `GroupReopen.SelectionAfter` | collections/colpersist.go:523-578 | a selection so read is exact for the same records under the reader's ids |
| `GroupReopen.ReopenedGroupExactly` | collections/colpersist.go:516-578 | a group attribute is read right after reopening, on every record, if and only if the number looked for in the group's block, translated only under a dictionary's names, and the number looked for in the base tails are its own wherever a record can have it |
| `GroupReopen.GroupBlockMisread` | collections/colpersist.go:516-521 | a record with the whole group whose values are in no slot is misread in the group's block of a segment with names |
| `NativeReopen.DictLoadTables` | collections/colnative.go:113-131 | a load with the dictionary has tables under which every attribute with a number is looked for under it, in base and group blocks, and goes out under it |
| `NativeReopen.GlobalLoadTables` | collections/colpersist.go:461-521 | a load without one has tables under which a base tail maps back to the reader's own ids |
| `NativeReopen.NativeAfter` | collections/colnative.go:69-145 | reopened, the columns are exact for the same records under the new ids |
| `NativeReopen.SpliceReopened` | collections/colnative.go:69-306 | a record stripped into a segment with a dictionary comes back whole, under the keys it had, in a process with other ids |
| `NativeReopen.DictSplices` | collections/colnative.go:113-131 | with a dictionary every record the segment can hold comes back whole |
| `NativeReopen.GlobalSplicesExactly` | collections/colnative.go:113-131 | without one every record comes back whole if and only if each group attribute that a tail can hold has the id it had when it was written |
| `NativeReopen.FreshSplices` | collections/colnative.go:113-131 | in the process that wrote it a segment without a dictionary gives every record back whole |
| `NativeReopen.GlobalGroupLost` | collections/colnative.go:113-131 | a group attribute given another id is lost from a record with the whole group |
| `NativeReopen.DictProjectsExactly` | collections/colproject.go:186-216 | with a dictionary a projection that is not declined is right on every record if and only if each wanted attribute is named by it, or has an id past its numbers or that of a group's sole member |
| `NativeReopen.DictGivesAnother` | collections/colproject.go:186-216 | otherwise a record of the attribute with that number comes back with it |
| `NativeReopen.GlobalProjectsExactly` | collections/colproject.go:186-216 | without one, if and only if each wanted attribute that the stored names lead to has, if it is a group's, kept its id, and no other has the id an attribute in a base tail was stored under |
| `NativeReopen.GlobalGivesAnother` | collections/colproject.go:186-216 | otherwise a record of the attribute stored under that id comes back with its value under the wanted name |
| `Section.SectionExactly` | collections/colpersist.go:60-107 | a section is accepted if and only if it is this version's frame of its body for a segment of this length under 4 GiB; for its schema alone, if and only if it is some version's |
| `Section.SchemaAgrees` | collections/colpersist.go:109-142 | the schema read alone is the schema of a full read, wherever a full read gives anything |
| `Section.SchemaSurvives` | collections/colpersist.go:109-142 | and it survives any change of what follows the hot set |
| `Crash.SplitJoin` | collections/archive_merge.go:110-116 | splitting the marker's text gives back the source names it was written from |
| `Crash.TrimSpaceMeans` | collections/archive_merge.go:194-198 | a name read from the marker loses the spaces at its ends and nothing else |
| `Crash.CommitSegmentRewrite` | collections/archive_merge.go:99-156 | wherever the machine goes down, and whichever step fails, every rewrite is left in one of five recoverable phases; it reports success exactly when every step did, and then the output stands alone beside the sources still pinned |
| `Crash.FinishOne` | collections/archive_merge.go:165-203 | a recorded or renamed rewrite is carried through, a withdrawn one dropped, and no other file changes |
| `Crash.FinishPendingMerges` | collections/archive_merge.go:165-213 | a crash during recovery leaves a recoverable directory; a recovery that ends leaves every rewrite wholly done or wholly undone, every durable one done, no temporary name, and a second run changes nothing |
| `Crash.NothingLostOrDoubled` | collections/archive_merge.go:99-213 | then every record is loaded exactly as often as before the rewrites began |
| `Crash.CopiesNone` | collections/archive_merge.go:99-213 | a record counts as loaded exactly where a live segment holds it |
| `Crash.HasNone` | collections/archive_merge.go:99-213 | a file counts as holding a record exactly where it is a segment with it |
| `Crash.CrashAnywhere` | collections/archive_merge.go:99-213 | a commit cut short anywhere, then any number of recoveries cut short anywhere: the first that ends restores every record's count |
| `Crash.PinnedExact` | collections/archive_merge.go:150-156 | dropping the marker while sources are pinned keeps a record's count if and only if no pinned source holds it |
| `Crash.PinnedTwice` | collections/archive_merge.go:150-156 | a pinned source's record is loaded twice after a crash |
| `MergePolicy.WithDefaults` | collections/archive_mergepolicy.go:82-109 | every option within its range is kept; every bound of a pass is positive, the trigger is at least the target and a run may have two segments |
| `MergePolicy.Defaults` | collections/archive_mergepolicy.go:69-109 | options out of range take the documented defaults |
| `MergePolicy.NextMergeRun` | collections/archive_mergepolicy.go:170-242 | the run starts at the oldest eligible segment under the wanted size and is grown until that size, the size cap, the byte budget or MaxRun stops it; it is offered exactly when it has two segments, and then leaves the newest KeepRecent alone and fits every cap |
| `MergePolicy.ChosenSized` | collections/archive_mergepolicy.go:197-242 | by options and segments alone: a segment passed over has the least merge size and its share of the whole, or is at a cap; the run begins at one that has not; it ends at the newest kept, the longest run or a cap, or large enough; and without its last segment it is not |
| `MergePolicy.ChosenUnique` | collections/archive_mergepolicy.go:212-240 | those conditions leave no choice of run |
| `MergePolicy.Archive.MergeSegments` | collections/archive_merge.go:57-97 | the run's first slot takes all its records in order, the others empty, or nothing changes |
| `MergePolicy.MergedSealed` | collections/archive_merge.go:126-147 | the sealed slots afterwards are those before with the run shrunk to its first |
| `MergePolicy.MergedLog` | collections/archive_merge.go:57-97 | merging an adjacent run leaves the concatenated record log as it was |
| `MergePolicy.MergeKept` | collections/archive_mergepolicy.go:126-160 | one merge spares the open and the newest segments and lowers the segment count by all but one of the run |
| `MergePolicy.Archive.MergePass` | collections/archive_mergepolicy.go:126-160 | a pass is a sequence of merges of chosen runs, at most MaxMerges of them and at most MaxBytesPerPass source bytes; the count falls with each; below the trigger nothing happens, and above it the pass stops only at a bound, a failed merge or when no run is left |
| `MergePolicy.WholeLogKept` | collections/archive_mergepolicy.go:126-160 | with the open segment last the whole log is unchanged by a pass |
| `Race.Reconcile` | collections/colnative_build.go:327-343 | every sequence number of the output equals its source's |
| `Race.RewriteInvisible` | collections/colnative_build.go:312-343 | for every interleaving of deletes with copy and swap, what is served is what it would be with no rewrite |
| `Race.SwapKeepsSnapshots` | collections/archive_merge.go:126-147 | the swap changes what no snapshot sees of any record |
| `Race.DeleteHides` | collections/segment.go:584-594 | a delete hides its record from every snapshot from then on, from none before, and no other record |
| `Race.PinnedReaderAgrees` | collections/archive_merge.go:126-147 | a scan still on the source sees there what the output would show it |
| `Race.WithoutReconcile` | collections/colnative_build.go:312-343 | without the reconcile step the swap changes nothing if and only if no delete landed between copy and swap |
| `Race.Revived` | collections/colnative_build.go:312-343 | such a delete would come undone |
| `Race.RevivedExactly` | collections/archive_merge.go:99-147 | for every interleaving of rewrite, deletes and writes reaching the disk: a delete on disk in the source is lost by a crash if and only if the intent is recorded, it landed after its record was copied, and the output's number has not reached the disk since the swap |
| `Race.RevivedByCrash` | collections/archive_merge.go:99-147 | copied, deleted, the delete on disk, the intent recorded: the record is back after a crash |
| `GroupCounts.NeverOver` | collections/archive_groupcount.go:147-211 | counts that never exceed the truth total at most the record count, and less if any value falls short |
| `GroupCounts.SelfValidating` | collections/archive_groupcount.go:205-211 | a total equal to the record count forces every per-value count to be exact |
| `GroupCounts.Unconstrained` | collections/archive_groupcount.go:147-211 | with no conditions the matching count of a value is its count |
| `GroupCounts.ReadRow` | collections/archive_groupcount_where.go:318-379 | a record forms a group if and only if it carries the attribute as a string and no condition's attribute ahead of it is other than a number; then the value and the match are exact |
| `GroupCounts.OrderMatters` | collections/archive_groupcount_where.go:345-365 | so the same two attributes in the other order can turn an answer into a refusal |
| `GroupCounts.ZoneDecides` | collections/archive_groupcount_where.go:137-169 | always and never verdicts of a zone are right about every value in it |
| `GroupCounts.ZoneDecidesExactly` | collections/archive_groupcount_where.go:43-185 | for a number and any comparison but != always and never are said exactly where all values between the bounds satisfy it and where none does |
| `GroupCounts.SegmentVerdict` | collections/archive_groupcount_where.go:295-313 | the verdict is right about every user record, and straddles exactly where the zones prove neither |
| `GroupCounts.AddPostings` | collections/archive_groupcount_where.go:235-252 | a decided segment's postings are added wholesale, value by value, and to the total |
| `GroupCounts.CountAttrWhere` | collections/archive_groupcount_where.go:318-379 | records are counted exactly, and the walk fails if and only if some user record forms no group |
| `GroupCounts.CountWindow` | collections/archive_groupcount_where.go:226-266 | a segment is counted if and only if its postings, where used, can be enumerated and every record they do not cover forms a group |
| `GroupCounts.CategoricalGroupCountsWhere` | collections/archive_groupcount_where.go:200-274 | accepted if and only if every segment can be counted and every index used accounts for all the records it covers; and then every value's count is that of the matching user records |
| `GroupCounts.ExpressionNotCounted` | collections/archive_groupcount_where.go:345-365 | a condition on an attribute held as an expression leaves the record uncounted, whatever the evaluator makes of the expression, though it still counts among the records carrying its value |
| `Ranges.ParsedMeans` | collections/archive_groupcount_where.go:43-130 | for every accepted constraint the evaluator finds it true if and only if every condition holds of the value its attribute comes to and no equality compares two distinct integers that share a float64 |
| `Ranges.ParseExactly` | collections/archive_groupcount_where.go:43-130 | a constraint is read exactly where it is comparisons of a bare attribute with a number, either way round, joined by &&, with parentheses anywhere |
| `Ranges.CountedExactly` | collections/archive_groupcount_where.go:43-185 | a record is counted that does not match if and only if its condition attributes are literals and such an equality lets it in; one matches uncounted if and only if some condition attribute is an expression and every value read satisfies its conditions |
| `Ranges.SmallApart` | collections/archive_groupcount_where.go:109-120 | integers below 2^53 never share a float64 |
| `Ranges.SmallCounted` | collections/archive_groupcount_where.go:43-185 | over literal attributes and integers below 2^53 exactly the matching records are counted |
| `Ranges.MergedEquality` | classad/evaluator.go:1260-1294 | beyond that a record the evaluator rejects is counted |
| `Ranges.ExpressionMissed` | collections/archive_groupcount_where.go:345-365 | an attribute held as an expression that comes to 5 satisfies x < 10 for the evaluator and is not counted |
| `GroupSchema.Presence` | collections/colgroupschema.go:105-127 | the presence of every attribute outside the base schema is exactly the sampled ads carrying it |
| `GroupSchema.ByPattern` | collections/colgroupschema.go:128-132 | attributes are listed together exactly when their presence is identical |
| `GroupSchema.ExactCandidates` | collections/colgroupschema.go:101-148 | every attribute outside the base schema that occurs is in exactly one candidate, with those of its own presence |
| `GroupSchema.Absorb` | collections/colgroupschema.go:423-443 | the loop grows the group as the greedy rule says, candidate by candidate |
| `GroupSchema.GrowthMeans` | collections/colgroupschema.go:423-449 | a grown group's pattern is the exact intersection of those absorbed, its partial holders stay within the ceiling, and no id is in it twice |
| `GroupSchema.MergeNearPatterns` | collections/colgroupschema.go:415-450 | the widened groups are the greedy ones; they are disjoint, cover the same attributes, and each keeps the partial ceiling |
| `GroupSchema.MergeNeverGains` | collections/colgroupschema.go:155-167 | on its own a merge never covers more cells than its parts |
| `GroupSchema.RankRanks` | collections/colgroupschema.go:504-515 | ranking permutes the groups, keeps them disjoint and puts none behind a worse one |
| `GroupSchema.RankOrder` | collections/colgroupschema.go:504-515 | by cells, then members, then first member |
| `GroupSchema.JaccardMeans` | collections/colgroupschema.go:453-459 | nearness is symmetric and between 0 and 1, 1 exactly for equal non-empty patterns and 0 exactly for disjoint ones |
| `GroupSchema.TopIsBest` | collections/colgroupschema.go:504-524 | no group left out covers more cells than one taken |
| `GroupSchema.AfterExactly` | collections/colgroupschema.go:440-446 | after the in-place sort a candidate's slice is what it was if and only if nothing smaller was absorbed within its capacity |
| `GroupSchema.FallbackApartExactly` | collections/colgroupschema.go:168-178 | the exact candidates are still disjoint after a widening that is not adopted if and only if no slice was so disturbed |
| `GroupSchema.SpoiledCandidate` | collections/colgroupschema.go:440-446 | three ids in a slice of four, one smaller id absorbed: the last is lost to it |
| `GroupSchema.DeriveGroups` | collections/colgroupschema.go:168-200 | the widening is adopted exactly when its best k cover more cells; the groups are the first k of the chosen ranking with unstorable members dropped; adopted groups are disjoint with partial holders under the ceiling; with room for every candidate and every member storable, groups of a widening not adopted are disjoint if and only if no slice was disturbed |
| `Derive.RankCands` | collections/colgroupschema.go:145-154 | the candidates are permuted into rank order, each with its own slice |
| `Derive.Tally` | collections/colgroupschema.go:205-224 | the recount is the number of ads holding every member, some and none |
| `Derive.DeriveGroupSchemas` | collections/colgroupschema.go:101-227 | from samples and base schema to groups: at most k, of attributes that occur and the base lacks, each with its true counts, disjoint and within the ceiling as above |
| `Derive.SpoiledRun` | collections/colgroupschema.go:168-178 | two sampled ads for which the groups derived share an attribute, one of them held in part |
| `Evaluator.Evaluator.Evaluate` | classad/evaluator.go:396-408 | evaluation ends, its outcome is the recursive meaning of the expression, and current ad and every in-progress mark end as they began, on return and on unwinding alike |
| `Evaluator.Evaluator.EvalNode` | classad/evaluator.go:412-470 | the same for one node: literals, parentheses, strict and short-circuit operators, both conditionals, ?: and references |
| `Evaluator.Evaluator.ShortCircuit` | classad/evaluator.go:1434-1453 | the right operand is evaluated only when the left does not decide, and a panic in it otherwise never happens |
| `Evaluator.Evaluator.Conditional` | classad/evaluator.go:753-777 | one branch is evaluated, but both under an undefined condition, whose panics are kept |
| `Evaluator.Evaluator.Choose` | classad/evaluator.go:1593-1607 | ifThenElse evaluates the chosen branch only, and neither under an undefined condition |
| `Evaluator.Evaluator.EvalAttrExpr` | classad/evaluator.go:572-597 | a marked attribute unwinds as cyclic; otherwise it is evaluated in its own ad under its mark, and mark and ad are restored |
| `Evaluator.Evaluator.EvalRecoveringCyclic` | classad/evaluator.go:247-262 | a panic becomes an error value, and current ad, marks and depth all end as they began |
| `Evaluator.Evaluator.ListValue` | classad/evaluator.go:226-240 | so every element of a lazy list has the value it would have alone, whatever became of those before it |
| `Evaluator.ValueHasNoCycle` | classad/evaluator.go:483-597 | over strict operators, if evaluation yields a value no chain of references from it repeats an attribute |
| `Evaluator.CycleHasWalk` | classad/evaluator.go:483-597 | if it fails as cyclic some chain of references comes back to an attribute on it |
| `Evaluator.CyclicMeans` | classad/evaluator.go:396-597 | over every operator, if evaluation fails as cyclic a reference cycle is reachable |
| `Evaluator.CyclicExactly` | classad/evaluator.go:396-597 | over strict operators, unless the depth bound is hit, evaluation fails as cyclic if and only if a reference cycle is reachable |
| `Evaluator.CycleNotReached` | classad/evaluator.go:1434-1453 | a short circuit can step over a cycle: false && a is false though a refers to itself |
| `Evaluator.TooDeepIsDeep` | classad/evaluator.go:396-408 | the bound is hit only along a chain of references without repeats whose expressions nest that deep |
| `Evaluator.EvaluateAttr` | classad/classad.go:895-909 | a missing attribute is undefined, or the time for CurrentTime; otherwise the expression's value, an error whenever evaluation unwinds; an error always for a strict attribute from which a cycle is reachable |
| `Logic.ScopeReads` | classad/evaluator.go:483-545 | MY reads the ad, TARGET the matched ad, PARENT the enclosing ad, and a bare name the first definition among the ad, its enclosing ads outward, the matched ad and its enclosing ads; undefined where there is none |
| `Logic.ClockReads` | classad/evaluator.go:472-481 | CurrentTime, bare or of MY, is the ad's where the ad defines it and the time where nothing does |
| `Logic.TruthLaws` | classad/evaluator.go:1390-1495 | over operands with a truth && is the minimum and logical-or the maximum of false < undefined < true; both commute, an operand with itself is its truth, and numbers count by whether they are zero |
| `Logic.ErrorLaws` | classad/evaluator.go:1455-1495 | an operand without a truth makes an error unless the left has decided |
| `Logic.ShortLaws` | classad/evaluator.go:1434-1495 | so the evaluator gives, short circuits included |
| `Folding.AndRulesExactly` | classad/classad.go:1220-1256 | each && rule keeps the value if and only if the other operand is of the right kind |
| `Folding.OrRulesExactly` | classad/classad.go:1220-1256 | the same for logical-or |
| `Folding.ElvisRuleExactly` | classad/classad.go:1323-1337 | dropping the left of ?: keeps the value if and only if it was undefined or equal to the right |
| `Folding.NodeExactly` | classad/classad.go:1171-1360 | where the operands fold exactly, a node does if and only if its own rule is exact there, the clock's included |
| `Folding.FoldPreserves` | classad/vm_support.go:134-139 | evaluating without the depth bound, folding preserves the value wherever each rule that fires is exact, cyclic unwinding included; `Depth.FoldKept` is this under the bound |
| `Folding.PlainPreserved` | classad/vm_support.go:134-139 | so it does for every expression whose && and logical-or operands are boolean or undefined, whose ?: left sides fold to literals and whose clock is the time; `Depth.PlainKept` is this under the bound |
| `Folding.FoldIdempotent` | classad/classad.go:1171-1360 | folding a folded expression changes nothing |
| `Folding.ConstantFolds` | classad/classad.go:1171-1360 | an expression over concrete literals and the clock, every step concrete, folds to one literal, the value the evaluator gives |
| `Folding.OperatorFolds` | classad/classad.go:1209-1322 | an operator on literals is folded exactly where it comes to a value that is neither undefined nor an error and no operand is undefined, `is` and `isnt` also where they come to a boolean |
| `Folding.ElvisLosesValue` | classad/classad.go:1323-1337 | a defined reference on the left of ?: is folded away |
| `Folding.AndTrueLosesCoercion` | classad/classad.go:1232-1247 | x && true folds to x, so a number survives where the evaluator gives its truth |
| `Folding.NowLosesValue` | classad/classad.go:1198-1207 | CurrentTime is folded to the time for an ad that defines it otherwise |
| `Folding.FoldTimeless` | classad/currenttime.go:16-21 | a folded expression has no reference to the clock left |
| `Depth.Shallower` | classad/evaluator.go:396-408 | an evaluation that does not hit the bound comes to the same when started shallower |
| `Depth.EvalAgrees` | classad/evaluator.go:396-470 | short of the bound the evaluator computes what the operators make of the references' outcomes |
| `Depth.FoldKept` | classad/vm_support.go:134-139 | folding keeps the outcome of every evaluation that stays within the bound, in every ad where each rule that fires is exact |
| `Depth.PlainKept` | classad/vm_support.go:134-139 | so it does for the usual query: boolean or undefined operands of && and logical-or, literals left of ?:, no ad defining CurrentTime |
| `Depth.ValueExactly` | classad/evaluator.go:396-408 | an expression that, with all it refers to, nests within the bound has a value; over strict operators it has one only then |
| `Depth.FittingKept` | classad/vm_support.go:134-139 | so folding keeps the value of every such query that nests within the bound, a condition on expression and ads alone |
| `Depth.FoldSameExactly` | classad/vm_support.go:134-139 | a strict expression and its folded form have the same value, or neither has one, if and only if the expression nests within the bound or its folded form does not either |
| `Depth.NowExactly` | classad/evaluator.go:472-481 | a reference to the clock and its folded form come to the same if and only if the ads leave it undefined or have the very time |
| `Depth.ParensPart` | classad/classad.go:1178-1191 | 1 in 2000 pairs of parentheses is an error as written and 1 when folded |
| `Depth.CountedInExactly` | collections/archive_groupcount_where.go:43-185 | against the evaluator with its bound, over strict attributes: a record is counted that does not match if and only if its condition attributes are literals, every condition holds, and an equality merges integers or the constraint with what it refers to does not fit within the bound; one that matches is left out if and only if every condition holds, one on an attribute that is not a literal, nothing is merged and it fits |
| `Depth.CountedIn` | collections/archive_groupcount_where.go:43-185 | the same over any attributes, with hitting the bound in place of not fitting; a constraint that fits never hits it |
| `Depth.ParensDeep` | classad/classad.go:1178-1191 | in 2000 pairs of parentheses a constraint reads as it did and is past the bound |

## Left out

- Record and select nodes on the wire: an attribute is a literal or the bytes of an expression of the other node kinds.
- Compression, the block cache, memory mapping and I/O errors other than those named in `Crash.Env`: a compressed stream stands for its contents.
- Scan.ScanCountMulti: string predicates are not part of the numeric scans.
- DictBlock.BuildStrDicts: rows are those the encoder wrote, so the fallback for a malformed row is not modelled, nor is the switch that turns dictionaries off.
- DictBlock.DictPrunes: the conjuncts are given; reading them and the probes out of a query, and deciding that they cover it exactly, are not modelled.
- Persist.PayloadTrips: the reader's cursor is a value threaded through functions, not an object advanced in place, so a limit that the reader applies while reading is applied after it.
- Restore.Reopen: the group section is opened in `GroupReopen.OpenGroup`. The codec is a lossless pair of functions, the bit pattern of a zone bound a parameter and the checksum any function.
- Restore.LoadFields: a kind outside the four a writer has is refused, where the source keeps such a field and lays it out like a number; no section this store wrote has one.
- Evaluator.CyclicExactly: strict operators and references only, because it is false beyond them (`Evaluator.CycleNotReached`). Records, subscripts and function calls other than ifThenElse are left out of the evaluator, lists appear only as the element expressions of `Evaluator.Evaluator.ListValue`, and a custom resolver is not modelled.
- NativeBuild.ColumnarizeSegment: staging the new segment and publishing it are in `Crash` and `Race`, not in this method.
- Folding.FoldPreserves: evaluation there has no depth bound, nor in `Folding.PlainPreserved`; `Depth.FoldKept` and `Depth.FoldSameExactly` are the same laws with it.
- Depth.FoldKept: lists, records, subscripts and functions other than ifThenElse are left out; strict operators are a parameter, so the theorem holds for any of them. The clock stands still between folding and evaluating.
- Stats.StatsMean: float addition is a parameter; nothing is claimed about how it rounds.
- Snapshots.Table.Apply: the hash chains and key indexes that lead to a current version are a search of the segments; checkpoint markers, conflict checks of transactions and the dropping of old versions are left out.
- GroupSchema.ExactCandidates: which members have a storable kind is a parameter of what follows. Bitmaps are sets, and the backing array of a Go slice is a capacity.
- GroupCounts.CategoricalGroupCountsWhere: parsing to an expression tree, attribute-name lookup and building the postings are not modelled; that postings never over-count and that a zone exists only for all-numeric segments are hypotheses.
- Bucketed group counts (collections/archive_groupcount.go:62-143): the same argument with one more key.
- Crash.FinishPendingMerges: a marker that exists but cannot be read, and a marker torn in the middle of its write, are not modelled; a failed marker write leaves either no marker or a whole one.
- MergePolicy.Archive.MergePass: whether a merge's rewrite succeeds and how large its output is are parameters, and so is the sidecar rebuild after a pass.
- Race.RewriteInvisible: locks are atomic steps, and a delete is a step that stamps a sequence number.
- Group-column vector loads, the prune planner, index selection, auto-indexing, retraining, the change feed, JSON and struct marshalling: not modelled.
