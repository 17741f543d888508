# Position and data engines of an incremental Markdown parser

Dafny models of the engines under markdown-core's incremental parser, with proofs of what they promise each other:

- the two keyed indexes: an open-addressed hash index whose removals leave no trace, and a counted B+ tree of
  byte-ordered keys with rank, select and a cursor;
- the array that copies itself ahead of its growth, and the string buffer built on it;
- the maps from content bytes to source bytes: runs in one shared vector, sliced, copied, cut, derived from lines that
  hold NUL, joined by text consolidation, and read into places;
- the input: the line index that grows with the text, and the cursor that expands tabs;
- the two orders: the byte-by-byte sort of source entries, and the log of what readings reached;
- the dialect's tables: gate lists, inline dispatch, finish steps and the instances.

Each engine that updates state in place is a class or a method on arrays with the source's fields, loops and branches,
proved against a specification: the finite map an index stands for, the sequence an array holds, the source each
content byte is read from, the lines of a text scanned once. The properties are lemmas about those specifications and
invariants every operation keeps.

Storage may be refused wherever the source asks for it. An operation that asks for some takes `granted`: when it holds
nothing the operation asks for is refused, and otherwise each request may be. So a contract says both when an operation
must succeed, what is granted and the source's own limits met, and when it asks for no storage and succeeds whatever is
refused.

| file | models |
|---|---|
| `basics.dfy` | what several components use |
| `key_order.dfy` | keys, their eight-byte heads, and their order |
| `key_tree_model.dfy`, `key_tree_growth.dfy`, `sorted_entries.dfy` | the B+ tree as a value: search, rank, insertion, removal, and the map it stands for |
| `ordered_index.dfy` | the B+ tree in nodes updated in place |
| `hash_table.dfy`, `key_index.dfy` | linear probing as a value, and the hash index |
| `ahead_array.dfy`, `string_buffer.dfy` | the array that moves ahead of its growth, and the string buffer |
| `content_maps.dfy`, `inline_placement.dfy`, `text_consolidation.dfy` | run maps, the inline placer's cached frame, and consolidation |
| `nul_lines.dfy` | lines that hold NUL, and the runs of their slices |
| `content_places.dfy`, `content_parts.dfy` | a content's map turned into places, and why no fewer would do |
| `byte_scan.dfy`, `source_lines.dfy` | searches a word at a time, and the line index |
| `line_cursor.dfy` | columns, tabs and the first byte that is no space |
| `source_order.dfy`, `reach_log.dfy` | the sort of source entries, and the reach log |
| `cell_content.dfy` | a table cell's content and map, assembled from its line |
| `gate_lists.dfy`, `inline_dispatch.dfy`, `finish_steps.dfy`, `instance_table.dfy` | the dialect's projections |

Where the code and a comment of it differ, the model follows the code:

- `map.c:196-198` says that no entry of the ordered index is ever removed; `map.c:333-356` removes entries from leaves.
  The bound on the levels still holds, as no node is ever removed: it counts leaves, not entries (`LevelsBound`).
- `ahead.h:19-21` says a growth moves no more than a slice. A growth of a push-only run moves up to two slices and two
  elements; `SwitchMovesMore` says when it moves more than two slices.
- `blocks.c:500-502` says the spaces a partially consumed tab leaves are marked against the tab itself. They are put as
  one copied run, so each space after the first is read from a byte past the tab (`TabColumns`).
- `buffer.c:29-31` says nothing writes through the shared empty buffer. `markdown_core_strbuf_drop` of one byte or more
  writes its zero there when the buffer never had storage (`StringBuffer.Drop`, its `past`).
- `blocks.c:4416-4418` says the furthest ends stay for the entries an edit keeps in place. When the merge is done and
  storage for the ends is refused (`blocks.c:4503-4506`), readings noted before a known one have moved it, and
  `furthest_count` still counts it: the edit may be tried again, the log is in order by then, and the ends of the first
  readings are never made again. `SortReach` says exactly when the known readings stay in place; `RetryMisses` is a
  log that a search then misreads.

## Model

| member | source | states |
|---|---|---|
| KeyOrder.PackedOrder | packages/markdown-core/core/map.h:81-98 | comparing heads, then lengths or tails, orders two entries byte-lexicographically and finds them the same exactly when their keys are equal |
| KeyOrder.KeyHead | packages/markdown-core/core/map.h:64-72 | the loop over a key's bytes builds the number of its first eight, padded with zero bytes |
| KeyOrder.NumbersAreKeys | packages/markdown-core/core/map.h:74-78 | a 32-bit number's entry stands for its four big-endian bytes, and numbers order as those keys do |
| OrderedIndex.TreeChild | packages/markdown-core/core/map.c:222-233 | the binary search of an inner node ends at the child whose range holds the key |
| OrderedIndex.TreePlace | packages/markdown-core/core/map.c:236-247 | the binary search of a leaf ends at the first entry not before the key |
| OrderedIndex.TreeSize | packages/markdown-core/core/map.c:250-260 | a node's counts sum to the entries below it |
| OrderedIndex.KeyTree.Find | packages/markdown-core/core/map.c:293-317 | finds the key's entry exactly when the map holds the key, and its rank: the entries below it are those of smaller keys |
| OrderedIndex.KeyTree.At | packages/markdown-core/core/map.c:319-331 | the entry of a rank below the count |
| OrderedIndex.KeyTree.Remove | packages/markdown-core/core/map.c:333-356 | the map without the key; the nodes and the leaves' number stay, with every separator and count right |
| OrderedIndex.KeyTree.Seek | packages/markdown-core/core/map.c:358-371 | a cursor over the entries from the key's rank on, which are those of keys not before it, in order |
| OrderedIndex.Cursor.Next | packages/markdown-core/core/map.c:373-379 | the next of those entries, past leaves emptied by removal, or none at the end |
| OrderedIndex.KeyTree.Entry | packages/markdown-core/core/map.c:387-518 | the key's entry, made when there was none: the map gains just that key, its entry the key with a zero number and no value, through splits up to a new root; when storage is refused the map is as it was; where the leaf has room none is asked for; one leaf more at most |
| OrderedIndex.KeyTree.FewLevels | packages/markdown-core/core/map.c:196-200 | a tree whose leaves fit an address space has fewer levels than the path arrays have room for, one more included |
| KeyTreeModel.RankCuts | packages/markdown-core/core/map.c:293-317 | the entries below a key's rank are those before it |
| KeyTreeModel.FoundAtPlace | packages/markdown-core/core/map.c:293-317 | a tree has a key exactly when the entry at its place in its leaf has it |
| KeyTreeGrowth.InsertOrdered | packages/markdown-core/core/map.c:461-514 | an insertion keeps the leaves in order and each separator between its subtrees, through every split |
| KeyTreeGrowth.InsertLeaves | packages/markdown-core/core/map.c:436-457 | an insertion changes one leaf, which becomes itself with the entry or two that share it |
| KeyTreeGrowth.GrownLeavesCount | packages/markdown-core/core/map.c:436-457 | an insertion makes one leaf more at most, and none in a tree with no entry |
| KeyTreeGrowth.InsertFilled | packages/markdown-core/core/map.c:461-514 | an insertion keeps at least eight children in each inner node under the root |
| KeyTreeGrowth.InsertNodes | packages/markdown-core/core/map.c:410-428 | an insertion takes one node for each split, and each node once |
| KeyTreeGrowth.LevelsBound | packages/markdown-core/core/map.c:196-200 | a tree of some levels has at least 2 * 8^(levels - 1) leaves |
| SortedEntries.ByteOrder | packages/markdown-core/core/map.h:92-98 | the tree's entries are in byte-lexicographic order of their keys |
| SortedEntries.RankMeans | packages/markdown-core/core/map.c:293-317 | a rank is a count: the entries below it are exactly those whose keys are byte-lexicographically before the key |
| SortedEntries.RankOfSelected | packages/markdown-core/core/map.c:293-331 | rank and select are inverse |
| SortedEntries.RankUnique | packages/markdown-core/core/map.c:293-317 | a key has one rank |
| SortedEntries.WithDenotes | packages/markdown-core/core/map.c:436-457 | an entry put at its rank adds one key to the map |
| SortedEntries.RemovalDenotes | packages/markdown-core/core/map.c:333-356 | what a removal leaves stands for the map without the key |
| HashTable.EndsFinds | packages/markdown-core/core/map.c:54-67 | a lookup ends at a live slot exactly when the table holds the key, and at the key's own |
| HashTable.Fill | packages/markdown-core/core/map.c:159-164 | a key put where its lookup ended is added to the map, and every key stays reachable |
| HashTable.TableIsBuilt | packages/markdown-core/core/map.c:176-194 | a table is the one its live keys would have built: no removal leaves a trace |
| KeyIndexes.FindKeySlot | packages/markdown-core/core/map.c:54-67 | the probe loop ends at the key's slot or the first vacant one, or finds the table full of other keys |
| KeyIndexes.CapacityFor | packages/markdown-core/core/map.c:71-84 | the least doubling of the first capacity that keeps the load at most one half, or none that fits |
| KeyIndexes.KeyIndex.Rehash | packages/markdown-core/core/map.c:86-110 | the same map in a larger table, or all as it was when it cannot be had |
| KeyIndexes.KeyIndex.Reserve | packages/markdown-core/core/map.c:117-126 | room for so many keys, in the table there is when it has it or the least that has, with the same map; refused only what storage or the address space refuses |
| KeyIndexes.KeyIndex.Entry | packages/markdown-core/core/map.c:135-157 | the key's slot, or a vacant one where its lookup ends; the map is the same; a table with room for one key more never refuses, one without only what storage or the address space refuses |
| KeyIndexes.KeyIndex.Commit | packages/markdown-core/core/map.c:159-164 | the map gains just that key |
| KeyIndexes.KeyIndex.Find | packages/markdown-core/core/map.c:166-174 | finds the key's slot exactly when the map holds the key |
| KeyIndexes.ShiftBack | packages/markdown-core/core/map.c:182-192 | shifting the run back over a hole leaves every other key reachable from its home |
| KeyIndexes.KeyIndex.Remove | packages/markdown-core/core/map.c:182-194 | the map without the key; the load stays at most one half |
| AheadArrays.Room | packages/markdown-core/core/ahead.h:67-77 | the room is at least the count and at most the capacity, and past half full less than a slice past the count |
| AheadArrays.AheadArray.Copy | packages/markdown-core/core/ahead.c:17-36 | under its asserted preconditions the copies of the elements hold as far as the pace says, or nothing changes |
| AheadArrays.AheadArray.Switch | packages/markdown-core/core/ahead.c:38-50 | the storage ahead becomes the array's, with every element, and only what was not copied moves |
| AheadArrays.AheadArray.Extend | packages/markdown-core/core/ahead.h:117-151 | room for the total with every element kept, the preconditions of copy and switch met; or nothing changes; the storage ahead is enough up to twice the capacity |
| AheadArrays.AheadArray.Push | packages/markdown-core/core/array.h:49-50 | the sequence with the element, or as it was; into free room always, with no storage touched; in a push-only run no growth moves more than two slices and two elements, and all of them no more than three for each push |
| AheadArrays.PacedOn | packages/markdown-core/core/ahead.c:17-50 | a growth of a push-only run keeps the pace and its bound |
| AheadArrays.MovesSpent | packages/markdown-core/core/ahead.c:17-50 | what a growth of a run moves is what it spends |
| AheadArrays.MovesMore | packages/markdown-core/core/ahead.h:67-77 | a growth of a push-only run moves more than two slices exactly when it is the first after a switch and the next place starts a slice |
| AheadArrays.SwitchMovesMore | packages/markdown-core/core/ahead.h:19-21 | the growth after a switch from c places does exactly when a slice divides c + 1 |
| AheadArrays.PushKeepsCopies | packages/markdown-core/core/array.h:60-73 | a push keeps the copies exactly when none is past the count, or the one there is of what is pushed: what may follow room made past the count |
| AheadArrays.AheadArray.Append | packages/markdown-core/core/array.h:55-58 | the sequence with all of the elements, or as it was |
| AheadArrays.AheadArray.ReservePast | packages/markdown-core/core/array.h:60-68 | room past the count, with the elements and what its user holds past them kept |
| AheadArrays.AheadArray.Take | packages/markdown-core/core/array.h:70-73 | what its user put past the count becomes elements |
| AheadArrays.AheadArray.Write | packages/markdown-core/core/array.h:75-77 | the sequence with one element changed, no copy of it or of those after it counted |
| AheadArrays.AheadArray.Truncate | packages/markdown-core/core/array.h:79-81 | the sequence cut at its end |
| AheadArrays.AheadArray.Shrink | packages/markdown-core/core/ahead.c:58-74 | the same sequence in the least doubling that holds it |
| StringBuffers.StringBuffer.Grow | packages/markdown-core/core/buffer.c:77-129 | room for the target and a zero, never past the limit and one, or the buffer poisoned with what it held; the size asked for is `Oversized` |
| StringBuffers.Oversized | packages/markdown-core/core/buffer.c:98-107 | the size asked for is the least multiple of eight past half as much again as the target, or the limit and one, and computed within 32 bits |
| StringBuffers.GrowthPays | packages/markdown-core/core/buffer.c:98-107 | the moves of all growths together are linear in the room, at most twice it short of the limit |
| StringBuffers.StringBuffer.Put | packages/markdown-core/core/buffer.h:123-135 | the bytes with the data and a zero at their end, or the buffer poisoned with what it held: exactly when it was, when the limit is passed, or when storage it needs is refused |
| StringBuffers.StringBuffer.PutC | packages/markdown-core/core/buffer.h:183-191 | the same of one byte |
| StringBuffers.StringBuffer.PutAhead | packages/markdown-core/core/buffer.h:147-159 | the same of a buffer that moves ahead of its growth |
| StringBuffers.StringBuffer.PutAheadGrown | packages/markdown-core/core/buffer.c:197-250 | the same where it must grow: by the ahead array's steps, or whole past the limit; which of the two, and the room that makes |
| StringBuffers.StringBuffer.Truncate | packages/markdown-core/core/buffer.c:353-363 | the bytes cut at their end |
| StringBuffers.StringBuffer.Drop | packages/markdown-core/core/buffer.c:365-378 | the bytes cut at their front; the zero is written to the shared empty buffer exactly when there was no storage and a byte is dropped |
| StringBuffers.DropFromNew | packages/markdown-core/core/buffer.c:24-36 | a new buffer that drops one byte writes its zero to the shared empty buffer |
| StringBuffers.StringBuffer.TrimEnd | packages/markdown-core/core/buffer.c:380-395 | the bytes without the whitespace at their end |
| StringBuffers.StringBuffer.Trim | packages/markdown-core/core/buffer.c:397-411 | the bytes without the whitespace at both ends |
| StringBuffers.StringBuffer.Unescape | packages/markdown-core/core/buffer.c:414-427 | the bytes without the backslashes before punctuation, the zero at the end taken for none |
| StringBuffers.EscapedBack | packages/markdown-core/core/buffer.c:414-427 | a text with a backslash before each of its punctuation is unescaped to the text |
| StringBuffers.Classes | packages/markdown-core/core/markdown_core_ctype.c:8-25 | the punctuation is the ASCII punctuation, and the whitespace space, tab, LF and CR |
| StringBuffers.StringBuffer.Detach | packages/markdown-core/core/buffer.c:284-312 | the bytes and a zero, or none from a poisoned buffer; a buffer with storage of its own always gives them; the buffer is empty again |
| StringBuffers.StringBuffer.TakeStorage | packages/markdown-core/core/buffer.h:169-181 | the same bytes in the other buffer's storage, which is then empty |
| StringBuffers.StringBuffer.Clear | packages/markdown-core/core/buffer.c:147-162 | the buffer empty and no longer poisoned |
| ContentMaps.ContentMarks.MarkNear | packages/markdown-core/core/parser.h:963-998 | the run an offset lies in, whatever the hint, in as many looks as halvings of the runs and two: one when the hint is right, two when it is one short |
| ContentMaps.ContentMarks.AppendMark | packages/markdown-core/core/blocks.c:423-452 | one run more at a map's end, moved to the vector's end first when it is not there, or the map as it was when storage is refused or the vector full; every other map that goes forward still does |
| ContentMaps.PutAnswers | packages/markdown-core/core/blocks.c:423-452 | a run put at a map's end answers from its own offset on, and the map before it as it did |
| ContentMaps.GrownElsewhere | packages/markdown-core/core/blocks.c:423-452 | what other maps answer stays, byte by byte, when the run written over is none they read for it |
| ContentMaps.GrownOver | packages/markdown-core/core/blocks.c:433-438 | every other byte answers what the new run does: the condition of the row above is exact |
| ContentMaps.MovedElsewhere | packages/markdown-core/core/blocks.c:412-421 | a map moved to the vector's end changes no other map's answers |
| ContentMaps.SliceAnswers | packages/markdown-core/core/blocks.c:535-547 | a slice answers each byte as the map it is of |
| ContentMaps.ContentMarks.Adopt | packages/markdown-core/core/blocks.c:535-547 | gives that slice, or nothing of no bytes or an empty map |
| ContentMaps.ContentMarks.AppendMarks | packages/markdown-core/core/blocks.c:549-572 | the bytes appended answer as the other map's did, the bytes before them and all other maps as they did, and a map that goes forward still does, the one appended to when what it is given follows its source |
| ContentMaps.ContentMarks.Rebase | packages/markdown-core/core/blocks.c:1138-1149 | what is left of a map cut at its front answers each byte as it did |
| ContentMaps.ContentMarks.Place | packages/markdown-core/core/blocks.c:956-980 | the source of one content byte, start and end |
| ContentMaps.ContentMarks.Span | packages/markdown-core/core/parser.h:1018-1051 | both ends of a span from a cursor, each as a lookup on its own answers |
| ContentMaps.PutSourced | packages/markdown-core/core/blocks.c:423-452 | a run put past a map's source keeps a map that goes forward one that does |
| ContentMaps.ForwardStays | packages/markdown-core/core/blocks.c:423-452 | every map without the one run that may be written over goes forward as it did |
| ContentMaps.SliceSourced | packages/markdown-core/core/blocks.c:535-547 | a slice of a map that goes forward does |
| ContentMaps.EscapeSourced | packages/markdown-core/elements/table.c:94-109 | so does a map given a cell's escaped pipe, one byte for the source of both |
| ContentMaps.TabColumns | packages/markdown-core/core/blocks.c:499-511 | of the columns a partially consumed tab leaves the first answers the tab, and only the first: each other answers as a byte of the rest of the line |
| InlinePlacement.InlineFrame.Seat | packages/markdown-core/core/inline_internal.h:163-179 | the frame holds the cursor's run |
| InlinePlacement.InlineFrame.Place | packages/markdown-core/core/inline_internal.h:224-246 | the cached frame gives the extent a lookup gives |
| InlinePlacement.InlineFrame.MapText | packages/markdown-core/core/inline_internal.h:190-205 | a Text's map answers each byte as its owner's does exactly when its literal is byte for byte the input it is placed on, and otherwise all of them with the whole extent; no storage is asked for a copy; no other map's answers change |
| TextConsolidation.ViewAnswers | packages/markdown-core/core/blocks.c:1784-1830 | operands that chain have one view answer every byte as its own operand does |
| TextConsolidation.Consolidate | packages/markdown-core/core/blocks.c:1777-1867 | one operand never fails, and a chain asks for no runs; the merged literal is the operands' joined, and the merged map answers every byte of it as its own operand did, by the view or run by run |
| NulLines.LineRestored | packages/markdown-core/core/blocks.c:5444-5473 | a line read with its NULs replaced is restored from what each byte read stands for |
| NulLines.OriginIsRead | packages/markdown-core/core/blocks.c:600-618 | a byte read is the source byte it stands for, or one of three for a NUL |
| NulLines.ReadOfSource | packages/markdown-core/core/blocks.c:600-618 | each source byte is read just where the NULs before it put it |
| NulLines.NormalizeLine | packages/markdown-core/core/blocks.c:5444-5473 | the loop writes the line as it is read, ended, and where its NULs are, in the room measured |
| NulLines.DenormalizedOffset | packages/markdown-core/core/blocks.c:600-618 | the binary search names the source byte of each byte read, within 32 bits |
| NulLines.AppendNulLineMarks | packages/markdown-core/core/blocks.c:861-898 | the runs of any slice of a line answer for each byte with the source byte that search names; at most two runs for each NUL and one; other maps answer as they did; a map that goes forward still does |
| NulLines.AppendLineMarks | packages/markdown-core/core/blocks.c:900-923 | the same of a line with or without NUL |
| CellContents.SetCellContent | packages/markdown-core/elements/table.c:89-129 | a cell holds its bytes with escaped pipes contracted, each answered with the source it stands for, both bytes of an escape for its pipe; its map goes forward |
| CellContents.EscapeOrigin | packages/markdown-core/elements/table.c:94-109 | an escape stands for two source bytes, past that of the byte before it and before that of the one after |
| CellContents.RunContracts | packages/markdown-core/elements/table.c:110-123 | a run no escape begins in is as it was, byte for byte |
| CellContents.EscapedBack | packages/markdown-core/elements/table.c:93-127 | a text written into a cell with its pipes escaped is the content the cell holds |
| ContentPlaces.ReadPlaces | packages/markdown-core/core/blocks.c:1031-1127 | the lengths of the places sum to the content's, their source is in order, apart or touching, and each byte's source lies in its place |
| ContentPlaces.ReadTouches | packages/markdown-core/core/blocks.c:1031-1127 | with no own lines no source is left out between the first place and the last |
| ContentPlaces.ReadCovers | packages/markdown-core/core/blocks.c:984-1127 | with own lines each byte of them lies in a place |
| ContentPlaces.ReadExact | packages/markdown-core/core/blocks.c:1031-1127 | a copied place of a neat read is byte for byte |
| ContentPlaces.SourcedRead | packages/markdown-core/core/blocks.c:1031-1127 | the places of a content whose map goes forward are all of that: faithful, and copied byte for byte |
| ContentParts.ReadParts | packages/markdown-core/core/blocks.c:1010-1024 | of a map that goes forward no two copied places touch, nor two of no content; a place that is not copied is of one run, each of its bytes read from all of it; what gives no content is of the own lines |
| ContentParts.SliceKind | packages/markdown-core/core/blocks.c:1075-1092 | the slice of a run is copied bytes, or each of its bytes is read from all of its source |
| ContentPlaces.NeatExactly | packages/markdown-core/core/blocks.c:1078-1096 | of a map of one run, the place read is byte for byte when copied exactly when the run is neat |
| ContentPlaces.KeptStays | packages/markdown-core/core/blocks.c:1049-1057 | what a read kept of a content is what a read of the grown content keeps there, so resuming is reading from the start |
| ContentPlaces.ShrankRead | packages/markdown-core/core/blocks.c:1052-1078 | resumed at or past a content's end the read gives the kept places, which are that content's exactly when it ends there |
| ContentPlaces.ReadContent | packages/markdown-core/core/blocks.c:1031-1127 | the loop gives those places, within the storage it took, and what it keeps; none only when storage is refused |
| ByteScan.BoundaryWord | packages/markdown-core/core/blocks.c:5503-5516 | the word test is true exactly when one of the eight bytes is NUL, CR or LF |
| ByteScan.LineEndWord | packages/markdown-core/core/blocks.c:5637-5646 | and the other exactly when one is CR or LF |
| ByteScan.SpanEnd | packages/markdown-core/core/blocks.c:5503-5524 | the byte a bytewise search finds, with at most eight looked at one by one |
| ByteScan.CompleteEnd | packages/markdown-core/core/blocks.c:5624-5651 | where the last complete line ends, resumed from the answer for the text before it grew |
| SourceLines.InputLines.ScanLine | packages/markdown-core/core/blocks.c:5532-5568 | a line scanned on from anywhere in it ends where the line does, its NULs counted, the work the bytes past the frontier |
| SourceLines.InputLines.ExtendLines | packages/markdown-core/core/blocks.c:5570-5585 | line `index` of the text, or none when it has fewer; the index stays one of the text's first lines |
| SourceLines.InputLines.Ask | packages/markdown-core/core/blocks.c:5589-5598 | unless it reads the input's end, the line is as it says in every text that goes on from this |
| SourceLines.InputLines.Grow | packages/markdown-core/core/blocks.c:5805-5816 | grown in any chunks, the index is of the first lines of the whole text; work is the bytes scanned |
| SourceLines.InputLines.ScanLastLine | packages/markdown-core/core/blocks.c:5659-5681 | the line the text had not finished is scanned on, CR LF across two chunks one terminator |
| SourceLines.WalkWhole | packages/markdown-core/core/blocks.c:5570-5585 | an index scanned to the text's end is the one scanned once from its start |
| SourceLines.WalkKept | packages/markdown-core/core/blocks.c:5614-5623 | the lines a text has finished stay however it goes on |
| SourceLines.CompleteFinished | packages/markdown-core/core/blocks.c:5614-5623 | the lines before where the complete ones end are exactly the finished ones |
| LineCursors.AdvancesAdd | packages/markdown-core/core/blocks.c:5940-5971 | advancing m and then n is advancing m + n, columns or bytes, through tabs and scalars |
| LineCursors.AdvanceDrops | packages/markdown-core/core/blocks.c:5940-5971 | advancing n columns drops the first n cells of the line with its tabs expanded |
| LineCursors.AdvanceBytes | packages/markdown-core/core/blocks.c:5940-5971 | an advance by n bytes ends n bytes on, or at the line's end or the first NUL before that, whatever scalars the bytes are of |
| LineCursors.AdvanceStands | packages/markdown-core/core/blocks.c:5940-5971 | the column stays that of the byte, or within the tab there |
| LineCursors.ContinuationBits | packages/markdown-core/core/blocks.c:5966 | a continuation byte is one whose two high bits are a one and a zero |
| LineCursors.LineCursor.Advance | packages/markdown-core/core/blocks.c:5940-5971 | the loop is that advance, by columns or by bytes, and what is kept of the first byte that is no space stays true |
| LineCursors.LineCursor.FindFirstNonspace | packages/markdown-core/core/blocks.c:5909-5930 | the kept position, column and indent are those of a fresh scan from the cursor |
| SourceOrder.Workspace.Order | packages/markdown-core/core/blocks.c:8454-8518 | the entries in the stable order of their keys, all of them, or as they were when storage is refused, of which fewer than two ask none; the work at most seventeen for each entry |
| SourceOrder.Pass | packages/markdown-core/core/blocks.c:8491-8506 | counting and placing by one byte is a stable sort by it |
| SourceOrder.PassAscends | packages/markdown-core/core/blocks.c:8487-8513 | a pass by one byte more orders by it and the bytes below |
| SourceOrder.SkipAscends | packages/markdown-core/core/blocks.c:8488-8490 | a pass by a byte all keys agree on can be left out |
| SourceOrder.SortedOnce | packages/markdown-core/core/blocks.c:8454-8518 | there is one stable sort of given entries |
| SourceOrder.TakenAll | packages/markdown-core/core/blocks.c:8502-8506 | entries each taken once are the same entries |
| ReachLogs.MergeStays | packages/markdown-core/core/blocks.c:4449-4479 | the merge from the back moves no entry before the first that starts past the least of the others |
| ReachLogs.MergeOrders | packages/markdown-core/core/blocks.c:4471-4478 | it puts the entries in order |
| ReachLogs.MergeKeeps | packages/markdown-core/core/blocks.c:4471-4478 | it keeps every entry |
| ReachLogs.ReachLog.MergeBack | packages/markdown-core/core/blocks.c:4470-4479 | the loop in place is that merge |
| ReachLogs.ReachLog.SortFront | packages/markdown-core/core/blocks.c:4430-4481 | the log sorted, a permutation, untouched before `moved`, whatever order the library sort leaves equal starts in |
| ReachLogs.ReachLog.SortReach | packages/markdown-core/core/blocks.c:4487-4525 | the furthest ends, recomputed from where the log moved, are those of all its prefixes; when storage is refused the readings whose ends are known stay in place exactly when the log is unmerged or nothing noted starts before one of them |
| ReachLogs.EndsAre | packages/markdown-core/core/blocks.c:4509-4516 | ends carried on from those of the first prefixes are the whole log's exactly when those were |
| ReachLogs.RetryMisses | packages/markdown-core/core/blocks.c:4502-4516 | a sort tried again after the refusal of the ends' storage leaves ends that miss a reading which spans a point |
| ReachLogs.ReachLog.Spanned | packages/markdown-core/core/blocks.c:4527-4557 | true exactly when some reading spans the point, with the least such start |
| ReachLogs.ReachLog.Note | packages/markdown-core/core/blocks.c:4401-4406 | the front with one reading more, whatever the back holds; the log is one after it exactly when it was and the reading starts no later than the back |
| ReachLogs.ReachLog.Unnote | packages/markdown-core/core/blocks.c:3900 | what a lookahead noted taken back |
| ReachLogs.ReachLog.Move | packages/markdown-core/core/zipper.h:158-183 | the focus moved either way leaves the log the same, split at the place, and the furthest ends of what stays |
| ReachLogs.ReachLog.Cut | packages/markdown-core/core/zipper.h:185-190 | the back's readings before a place gone, and no other |
| ReachLogs.ReachLog.Shift | packages/markdown-core/core/blocks.c:3817 | a text that grows before the back moves each of its readings by as much, and writes none |
| ReachLogs.ReachLog.Splice | packages/markdown-core/core/blocks.c:3807-3817 | the old readings read again go, the others move with the text; the log is one again exactly when the front starts no later than they do |
| ReachLogs.ReachLog.BackReadsPast | packages/markdown-core/core/blocks.c:3178-3188 | true exactly when a reading of the back spans the place |
| ReachLogs.ReachLog.Drop | packages/markdown-core/core/blocks.c:8650-8654 | a reading that took nothing back leaves no back |
| ReachLogs.ReachLog.Edit | packages/markdown-core/core/blocks.c:3197-3248 | move, notes, then splice or drop: the log is the readings before the rest point, those noted, and those taken back, moved; it is as the next edit needs it, and none spans where the reading stopped when none spanned the rest point and none noted does |
| ReachLogs.Unspanned | packages/markdown-core/core/blocks.c:3974-3981 | where the reading stopped is spanned by no reading of the log |
| GateLists.AdmittedAll | packages/markdown-core/core/dialect.c:566-602 | the projected list is exactly the owners that admit the key, in descriptor order |
| GateLists.ProjectGateLists | packages/markdown-core/core/dialect.c:566-602 | the table holds that list for each key, every write in its row |
| GateLists.GateCandidates | packages/markdown-core/core/blocks.c:7496-7511 | a line is asked of exactly the owners that admit its key, or of the whole family when none declares a gate |
| GateLists.LineCandidates | packages/markdown-core/core/blocks.c:7496-7521 | a line is asked of just the owners that look at its indent, or have its first byte that is no space in their gate or no gate |
| InlineDispatch.CountDispatch | packages/markdown-core/core/dialect.c:341-356 | running totals of how many elements declare each byte, a byte declared twice counted once |
| InlineDispatch.OrderOwners | packages/markdown-core/core/dialect.c:385-400 | the insertion in place orders the elements that match stably by precedence |
| InlineDispatch.AskedAll | packages/markdown-core/core/dialect.c:385-412 | each byte's list is exactly its declarers, by precedence and then in descriptor order |
| InlineDispatch.ProjectInlineDispatch | packages/markdown-core/core/dialect.c:401-412 | the entries between a byte's offset and the next are that list; no write passes what was counted |
| InlineDispatch.OwnersOf | packages/markdown-core/core/inlines.c:847-849 | what a byte is offered to, read back |
| FinishSteps.CountFinishKeys | packages/markdown-core/core/dialect.c:421-436 | each key counted as often as it is declared, and their sum |
| FinishSteps.MeasureSteps | packages/markdown-core/core/dialect.c:629-640 | the room measured is what the lists take, an end for each |
| FinishSteps.ListedAll | packages/markdown-core/core/dialect.c:442-506 | a key's list is of just the elements asked there, each once, in descriptor order |
| FinishSteps.SlotsDiffer | packages/markdown-core/core/dialect.c:468-496 | elements that are asked have state words of their own |
| FinishSteps.NonePast | packages/markdown-core/core/dialect.h:98-101 | no list is written past the kinds there are |
| FinishSteps.AppendFinishStep | packages/markdown-core/core/dialect.c:442-449 | a step is put under a key once, however often it is declared there |
| FinishSteps.ProjectFinishSteps | packages/markdown-core/core/dialect.c:457-506 | each key's list sealed in the room measured, ended, and none for a key nothing declares |
| FinishSteps.StepsAt | packages/markdown-core/core/dialect.h:130-151 | a list read to its end gives just those steps |
| InstanceTable.InstanceBits | packages/markdown-core/core/dialect.c:641-645 | the least power of two, two at least, that is twice the elements |
| InstanceTable.ProjectInstances | packages/markdown-core/core/dialect.c:515-543 | each element's instance is entered under its descriptor, in a table at most half full |
| InstanceTable.Instance | packages/markdown-core/core/dialect.h:360-369 | every lookup ends, with the element's own instance, or none for an element the dialect does not hold |

## Left out

- ContentPlaces.ReadExact: stated for reads that are neat; `SourcedRead` gives it for every map that goes forward, and `PutSourced`,
  `SliceSourced`, `EscapeSourced`, `AppendMarks`, `AppendNulLineMarks` and `AppendLineMarks` keep a map one that does. A
  content whose lines leave two or more columns of a partially consumed tab has a map that does not go forward
  (`TabColumns`); only blocks that take their lines as they are do, and those are not read into places.
- ContentMaps.GrownElsewhere: a map whose last run is written over answers anew from that run's offset; `GrownOver` says so exactly.
- OrderedIndex.KeyTree.Entry: assumes that the leaves fit an address space (`Addressable`), as any tree in memory does.
- AheadArrays.AheadArray.ReservePast: leaves `moved` past the count only until the places are taken; `PushKeepsCopies` says what a push before
  that needs.
- SourceLines.InputLines.Grow: when storage for a line's NUL count is refused the last line has its new end and the old count, and the parse has
  failed.
- NulLines.DenormalizedOffset: takes the line's text as an argument only the proof reads.
- Node arrays of the B+ tree are sequences whose length is the node's count; moves within a node are one assignment.
- Keys and entries hold their bytes by value. The source borrows them: a separator keeps the pointer of an entry that a
  removal took out, so the bytes of a removed long key must stay while the tree is searched.
- What callers write into borrowed entries, slots and places; freeing and ownership.
- The byte hash and the descriptor hash are any functions of the key; masks by a power of two are remainders.
- A reallocation is a move to new storage, or a refusal; the pool the storage comes from is not modelled.
- Byte order of the machine in the word tests: the first byte is the lowest; the tests do not depend on it.
- The sort's exclusive ORs of keys are the set of the bytes in which keys differ; its entries are values of any type, so
  the refusals of a zero stride and of sizes that overflow are not there.
- Offsets are integers; where the source computes in 32 bits the string buffer and the NUL search say that it fits, and
  elsewhere the input's bound is taken for granted.
- CellContents.SetCellContent: of a cell read from its line; a cell recovered from a paragraph takes its bytes by `AppendMarks` instead.
- Completing a consolidated Text, and the hooks of elements: their bodies are not part of this model.
- The kind records, peers and state layout of a dialect.
- ReachLogs.ReachLog.Note: storage for one reading more is taken for granted; when it is refused the parse has failed.
- The reading of the reach log that a reopen below the root takes out and a splice puts back (`blocks.c:3627-3658`,
  `blocks.c:4151`), but for the note itself.
- The zippers of lines and uses, which are the reach log's with other entries; the reading that looks for a span inside a
  reopened child.
- The line machine, candidates, sessions, publishing and ids.
