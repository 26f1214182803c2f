# Models and proofs for wasmos

This project models the hardest algorithms that wasmos carries: the vendored single-file libraries under `libs/stb`
and two of its own image and package builders. `dfyconfig.toml` takes in all files.

| area | modules | main result |
|---|---|---|
| grid connectivity | `GridPaths`, `DisjointSets`, `ClusterClumps`, `ClumpAdjacency`, `ClumpGraph`, `GridUpdate`, `ConnectedGrid` | after any run of single and batched updates a query answers reachability exactly |
| hash map | `ProbeOrder`, `HashTable`, `HashMap` | any run of puts and deletes refines a finite map, for every hash function, and every probe loop ends |
| zlib compression | `Bits`, `BitWriter`, `Inflate`, `Deflate`, `Compressor`, `Zlib` | decompressing the output gives the input back exactly if there is any input |
| undo and redo | `UndoHistory`, `TextHistory`, `TextEdit` | two arrays of records and characters carry out every run of edits, undos and redos exactly as a history of texts does |
| rectangle packing | `Skyline`, `NodeLists`, `RectPack` | over any number of calls all packed rectangles are inside the target and disjoint, each at a lowest position, and what fails would fit nowhere |
| image scanlines | `PngFilter`, `TgaRle`, `RadianceRle` | readers restore what the writers were given |
| disk image | `LittleEndian`, `Fat16`, `FatFields`, `FatReader`, `GptImage` | a reader finds every file, every field of both GPT copies, the boot sector and the directory is where it belongs, and the image verifies |
| division | `Divide` | all three pairs meet their definitions without overflow |
| application packages | `WapFormat`, `WapParser`, `WapPackage` | the parser accepts exactly the files laid out as packages, and reading all sections inverts the packer |

`Arith`, `Counting`, `Sequences` and `Options` hold facts and types that several areas share.

How the code's form is kept: state that the C code changes in place is a class or an array, and its loops are loops with
invariants; structures that only loops read (clumps of a cluster, adjacency storage) are values that the loops rebuild.
Independent definitions stand beside the code: paths in a grid, finite maps, a decoder written from RFC 1951 and RFC 1950,
the reconstruction rules of RFC 2083, histories of texts, column heights of a skyline, and readers for FAT16 volumes,
TGA packets and Radiance scanlines.

Points at which the code does less, or other, than its comments say; the model follows the code:

- `scripts/make_gpt_image.py` says the FAT size settles immediately. A size that needs exactly itself exists just when
  (total + 995) mod 1026 is below 1024 (`Fat16.FixedPoint`), and for totals inside the FAT16 band the iteration then
  reaches it (`Fat16.Settles`); for the two other residues there is none and the builder gives up
  (`Fat16.NoSizeSettles`). Images of 10 to 129 MiB never meet these residues; all other sizes are outside the FAT16 band
  (`GptImage.ImageSizes`).
- `libs/stb/stb_textedit.h` keeps an undone text for redo only if its characters fit below the character buffer's end;
  otherwise the redo record it leaves does not lead back (`TextEdit.Editor.Undo`, with a smallest case in `TextEdit.LostRedo`).
- `libs/stb/stb_image_write.h` compresses empty data to a stream without any block, which no decoder accepts; all other data
  comes back (`Zlib.Compress`).
- `libs/stb/stb_rect_pack.h` aligns the width it searches with but inserts the width as given; the skyline stays an upper
  bound all the same (`RectPack.Context.PackRectangle`).
- `libs/stb/stb_connected_components.h` compares labels as 32-bit words with ten bits for each cluster coordinate and does
  not check the number of clusters; the words tell labels apart exactly up to 1024 clusters each way
  (`ConnectedGrid.WordsDecideLabels`).

## Model

| member | source | states |
|---|---|---|
| ConnectedGrid.Grid.Query | libs/stb/stb_connected_components.h:272-289 | answers 1 exactly when both squares are open and some path of orthogonally adjacent open squares joins them, in every valid state outside a batch |
| ConnectedGrid.Grid.UniqueId | libs/stb/stb_connected_components.h:296-304 | two open squares get the same id exactly when a path joins them; closed squares get none |
| ConnectedGrid.Grid.Run | libs/stb/stb_connected_components.h:528-580 | after any legal sequence of updates and batches a square is open exactly if the last update of it opened it, or none was made and it was open; a batch is open as the last call that began or ended one says; outside a batch the grid is ready for queries |
| ConnectedGrid.LastSetDecides | libs/stb/stb_connected_components.h:528-551 | over any run, the last setting of a square decides whether it is open |
| ConnectedGrid.Grid.Update | libs/stb/stb_connected_components.h:528-567 | the square is open exactly if it was not set solid, all others stay as they were, and labels, lists and (outside a batch) global labels are right for the new map |
| ConnectedGrid.Grid.BatchBegin | libs/stb/stb_connected_components.h:569-573 | local labels and lists stay right while the global labels may lag behind |
| ConnectedGrid.Grid.BatchEnd | libs/stb/stb_connected_components.h:575-580 | the global labels are right again for everything that changed in the batch |
| ConnectedGrid.Grid.constructor | libs/stb/stb_connected_components.h:587-629 | byte k of the input, row by row, is zero exactly if its square is open; no square outside is, and the grid is valid from the start |
| ConnectedGrid.ChangeCluster | libs/stb/stb_connected_components.h:543-559 | after an arbitrary change inside one cluster, incremental editing of the five clusters concerned gives the labels and lists that building from scratch would give |
| ConnectedGrid.BuildClumps | libs/stb/stb_connected_components.h:863-1006 | relabels one cluster from scratch and touches no id and no label outside it |
| ConnectedGrid.FieldsFit | libs/stb/stb_connected_components.h:200-256 | for every supported cluster size, offsets, slice lengths and clump counts stay inside the fixed-width fields, and so do cluster coordinates up to 1024 clusters each way |
| ConnectedGrid.WordsDecideLabels | libs/stb/stb_connected_components.h:229-237 | comparing labels as 32-bit words tells all possible labels apart if and only if there are at most 1024 clusters each way |
| DisjointSets.Forest.Find | libs/stb/stb_connected_components.h:321-332 | path compression without ranks terminates, returns the root and changes no root, by a distance that falls along every parent link |
| DisjointSets.Forest.Union | libs/stb/stb_connected_components.h:844-853 | exactly the two classes are merged and the second root stays a root |
| DisjointSets.Forest.UnionLabels | libs/stb/stb_connected_components.h:341-352 | merges the classes of two clumps when the searches start from their stored labels |
| DisjointSets.Forest.SwitchRoot | libs/stb/stb_connected_components.h:855-861 | another member becomes the root of the same class; no class changes |
| ClusterClumps.LabelCluster | libs/stb/stb_connected_components.h:863-980 | two open squares of a cluster get the same id exactly when joined inside the cluster; ids are dense, edge clumps come first, closed squares get the null id |
| ClusterClumps.VisitEdgeSquare | libs/stb/stb_connected_components.h:904-951 | one square of the edge pass keeps the numbering right although it may move a root to the edge |
| ClusterClumps.JoinNeighbours | libs/stb/stb_connected_components.h:881-891 | the forest relates two squares of the box exactly when they are joined inside it |
| ClusterClumps.EdgeClumpBound | libs/stb/stb_connected_components.h:203-205 | at most 2n-2 clumps of an n-by-n cluster reach its edge |
| ClusterClumps.ClumpBound | libs/stb/stb_connected_components.h:186-190 | at most n*n/2 clumps fit a cluster, so no clump is numbered like a closed square |
| ClumpAdjacency.AddConnection | libs/stb/stb_connected_components.h:632-667 | appends one entry to one list, or raises the rebuild flag exactly when that slice is full |
| ClumpAdjacency.RemoveConnection | libs/stb/stb_connected_components.h:669-709 | removes exactly one entry; the search never fails on lists that hold it |
| ClumpAdjacency.AddSide | libs/stb/stb_connected_components.h:711-773 | lists gain exactly the clumps touched across that side, each once, or the cluster is flagged because a list is longer than its slice |
| ClumpAdjacency.RemoveSide | libs/stb/stb_connected_components.h:775-831 | lists lose exactly the entries across that side |
| ClumpAdjacency.CountSide | libs/stb/stb_connected_components.h:462-475 | counts the distinct clump pairs across a side: at most n/2 |
| ClumpAdjacency.Apportion | libs/stb/stb_connected_components.h:480-509 | slices are disjoint, at least as long as needed, fit the storage, and every offset is below 4n |
| ClumpAdjacency.BuildAllConnections | libs/stb/stb_connected_components.h:407-517 | every list holds, without duplicates, exactly the clumps touched on the current map, and the rebuild flag is clear |
| ClumpGraph.LabelsGiveSide | libs/stb/stb_connected_components.h:711-773 | correct labels alone give every border what the pair-by-pair scan relies on: equal pairs are consecutive |
| ClumpGraph.EntryMeaning | libs/stb/stb_connected_components.h:354-405 | every list entry is backed by two open squares touching across a border |
| ClumpGraph.BorderEntry | libs/stb/stb_connected_components.h:354-405 | every two open squares touching across a border have an entry for each other |
| ClumpGraph.ConnectClumps | libs/stb/stb_connected_components.h:354-405 | after the global pass two squares have the same label exactly when a path joins them |
| ClumpGraph.LabelsAnswerReachability | libs/stb/stb_connected_components.h:354-405 | the labels of the three passes are both sound and complete for reachability |
| GridUpdate.Detach | libs/stb/stb_connected_components.h:543-546 | a neighbour loses exactly its entries for the changed cluster |
| GridUpdate.Attach | libs/stb/stb_connected_components.h:556-559 | a neighbour lists the changed cluster again; if its lists overflow, the rebuild completes them |
| GridUpdate.AddWithRebuild | libs/stb/stb_connected_components.h:519-526 | the entries of one side are added, or all lists are laid out again if one is full; either way every list is exact |
| GridUpdate.WantKept | libs/stb/stb_connected_components.h:543-559 | with the entries for a cluster gone everywhere, no other list notices a change inside it |
| ProbeOrder.ProbeReaches | libs/stb/stb_ds.h:973-1002 | triangular bucket steps modulo a power of two reach every slot within the first n probes |
| ProbeOrder.TrianglesDiffer | libs/stb/stb_ds.h:999-1001 | triangular numbers below a power of two leave pairwise different remainders |
| ProbeOrder.PosForm | libs/stb/stb_ds.h:1273-1276 | where each probe round starts, in closed form |
| HashTable.FindSlot | libs/stb/stb_ds.h:1232-1279 | finds the slot of the key's entry, or -1 exactly when the key has none; terminates because some slot is empty |
| HashTable.FindPlace | libs/stb/stb_ds.h:1382-1428 | ends at the key's slot or, if the key is absent, at the first slot in probe order that is a tombstone or empty, from which the key stays reachable |
| HashTable.FindFree | libs/stb/stb_ds.h:973-1002 | the first empty slot in probe order; the rehash loop terminates |
| HashTable.FillSlot | libs/stb/stb_ds.h:1429-1448 | filling the slot a probe reaches without passing an empty one keeps every entry reachable |
| HashTable.DeleteSlot | libs/stb/stb_ds.h:1494-1500 | a tombstone removes one entry and keeps every other entry reachable |
| HashTable.RenameSlot | libs/stb/stb_ds.h:1510-1519 | repairing one back pointer renames an entry and changes no other |
| HashTable.NotPresent | libs/stb/stb_ds.h:1246-1271 | an empty slot in probe order proves the key absent |
| HashMap.LimitsLeaveRoom | libs/stb/stb_ds.h:904-935 | the used and tombstone thresholds together leave an empty slot at every size |
| HashMap.Rebuild | libs/stb/stb_ds.h:884-1011 | a new index of any suitable size refers to the same entries, without tombstones |
| HashMap.Insert | libs/stb/stb_ds.h:1371-1457 | overwrites the key's entry or appends one; the finite map changes at that key only |
| HashMap.Unlink | libs/stb/stb_ds.h:1489-1521 | swap-delete: the entry goes, the last one fills the hole, and its back pointer is repaired |
| HashMap.RepairMoved | libs/stb/stb_ds.h:1510-1519 | the search for the moved entry succeeds at the slot that still names its old position |
| HashMap.Trim | libs/stb/stb_ds.h:1523-1531 | the table halves below a quarter and is purged above three sixteenths of tombstones; no lookup changes and both thresholds are restored |
| HashMap.Grow | libs/stb/stb_ds.h:1357-1369 | the table doubles exactly when three quarters of its slots are used, and starts with eight; afterwards there is room for one more entry; no lookup changes |
| HashMap.ContentsSwapDelete | libs/stb/stb_ds.h:1506-1521 | moving the last entry into the hole removes exactly one key from the finite map |
| HashMap.Map.GetIndex | libs/stb/stb_ds.h:1281-1310 | index of the key's entry, or -1 exactly when the finite map lacks the key |
| HashMap.Map.Put | libs/stb/stb_ds.h:1337-1459 | the finite map is updated at the key, for every hash function |
| HashMap.Map.Delete | libs/stb/stb_ds.h:1472-1538 | the finite map loses the key; the result tells whether it was there |
| HashMap.Map.Run | libs/stb/stb_ds.h:1337-1538 | every sequence of puts and deletes leaves every key as its last call says, or as it was if there was none, for every hash function |
| HashMap.LastCallDecides | libs/stb/stb_ds.h:1337-1538 | over any run, the last call on a key decides its value |
| BitWriter.Writer.Add | libs/stb/stb_image_write.h:879-881 | the bit stream grows by exactly the code's low bits, and the combined accumulator stays below 2 to the 32 |
| BitWriter.Writer.Flush | libs/stb/stb_image_write.h:839-847 | whole bytes move to the buffer; the bit stream stays the same |
| BitWriter.BitRev | libs/stb/stb_image_write.h:849-857 | the reversed code, added low bit first, reads high bit first |
| Bits.LsbBitAt | libs/stb/stb_image_write.h:839-847 | bit i of a number comes i-th in the stream |
| Bits.MsbBitAt | libs/stb/stb_image_write.h:849-857 | in a Huffman code it comes i-th from the end |
| Bits.ByteBitAt | libs/stb/stb_image_write.h:839-847 | bytes follow each other and each fills from its lowest bit |
| Deflate.DecodeEncoded | libs/stb/stb_image_write.h:882-889 | a decoder of the fixed code of RFC 1951 reads every symbol back |
| Deflate.CanonicalCode | libs/stb/stb_image_write.h:882-889 | the codes are those section 3.2.2 of RFC 1951 derives from the code lengths of section 3.2.6 |
| Deflate.LengthRule | libs/stb/stb_image_write.h:901-902 | the decoder's length table by rule: four codes to every number of extra bits |
| Deflate.DistRule | libs/stb/stb_image_write.h:903-904 | the decoder's distance table by rule: two codes to every number of extra bits |
| Inflate.CopiedBytes | libs/stb/stb_image_write.h:957-965 | every byte a decoder copies is the one the distance before it |
| Deflate.DecodeMatchEncoded | libs/stb/stb_image_write.h:957-965 | a decoder reads every length and distance back, over all table rows and extra bits |
| Deflate.LengthGaps | libs/stb/stb_image_write.h:901-902 | the length tables agree with section 3.2.5 of RFC 1951 and leave no value uncovered |
| Deflate.DistGaps | libs/stb/stb_image_write.h:903-904 | the distance tables agree with section 3.2.5 of RFC 1951 and leave no value uncovered |
| Deflate.CopyRepeats | libs/stb/stb_image_write.h:859-865 | a match that repeats earlier bytes decodes to the next bytes of the data, also when it overlaps itself |
| Deflate.DecodeTokens | libs/stb/stb_image_write.h:921-974 | a decoder turns every encoded token string into the bytes it stands for |
| Deflate.DecodeFixedBlock | libs/stb/stb_image_write.h:915-978 | a final fixed-code block decodes to its tokens, whatever pads its last byte |
| Compressor.CountMatch | libs/stb/stb_image_write.h:859-865 | exactly how many bytes agree, up to the limit and to 258 |
| Compressor.BestMatch | libs/stb/stb_image_write.h:924-933 | the longest repeat within the window that the list offers, the last one among equals, or none if none agrees in three bytes |
| Compressor.BetterNext | libs/stb/stb_image_write.h:943-954 | true exactly if some entry of the next position's list agrees in more bytes |
| Compressor.Remember | libs/stb/stb_image_write.h:934-939 | the position joins its list, whose older half is dropped when full; no other list changes |
| Compressor.Step | libs/stb/stb_image_write.h:922-971 | the best match is written unless the next position's list offers a longer one, in which case a literal is; the bytes covered are exactly those written |
| Compressor.Tokenize | libs/stb/stb_image_write.h:921-974 | the stream grows by an encoding of all the data, for every quality and every hash function |
| Zlib.AdlerBlock | libs/stb/stb_image_write.h:1006-1011 | no sum of a block of 5552 bytes wraps a 32-bit accumulator |
| Zlib.Adler32 | libs/stb/stb_image_write.h:1001-1016 | the deferred-modulo loop gives 1 plus the sum of the bytes and the sum of these sums, each modulo 65521, in closed form, for every input |
| Zlib.AdlerSums | libs/stb/stb_image_write.h:1001-1016 | both sums of section 2.2 of RFC 1950 in closed form: 1 plus all bytes, and the length plus every byte times its distance from the end |
| Zlib.NoBlock | libs/stb/stb_image_write.h:984-999 | what is written for no data is rejected by the decoder |
| Zlib.StoreInstead | libs/stb/stb_image_write.h:984-999 | the stored form fits the space of the compressed one and is the stored-block encoding |
| Zlib.DecodeStored | libs/stb/stb_image_write.h:987-998 | a decoder reads all stored blocks back |
| Zlib.FixedDecompresses | libs/stb/stb_image_write.h:913-978 | the compressed form, with header and checksum, decompresses to the data |
| Zlib.StoredDecompresses | libs/stb/stb_image_write.h:984-999 | the stored form, with header and checksum, decompresses to the data |
| Zlib.Compress | libs/stb/stb_image_write.h:895-1022 | for every quality and every hash function, decompressing the result gives the input back if and only if it is not empty; the two header bytes and the four checksum bytes are stated literally |
| UndoHistory.TurnsBack | libs/stb/stb_textedit.h:1205-1271 | a recorded change is undone by putting what it deleted where it inserted |
| UndoHistory.CharPoint | libs/stb/stb_textedit.h:1161-1203 | the character point is the total stored length of the live records |
| UndoHistory.DropOldest | libs/stb/stb_textedit.h:1115-1132 | forgetting the oldest record keeps the meaning of every other one |
| UndoHistory.UndoPush | libs/stb/stb_textedit.h:1273-1322 | a change carried out forwards leaves a record that leads back |
| UndoHistory.RedoPush | libs/stb/stb_textedit.h:1205-1271 | an undo leaves a record that leads forward again, and room for all later redos |
| TextEdit.Editor.DiscardUndo | libs/stb/stb_textedit.h:1115-1132 | the oldest past text is forgotten and no other |
| TextEdit.Editor.CreateUndoRecord | libs/stb/stb_textedit.h:1161-1183 | room is made by forgetting as few of the oldest texts as possible, or all if the characters can never fit; the loop terminates |
| TextEdit.Editor.CreateUndo | libs/stb/stb_textedit.h:1185-1203 | the record is filled in and its characters reserved next to those of the others |
| TextEdit.Editor.MakeUndoReplace | libs/stb/stb_textedit.h:1329-1347 | the characters about to be replaced are stored with the record |
| TextEdit.Editor.Replace | libs/stb/stb_textedit.h:737-743 | exactly the range asked for gives way to the characters; the text before joins the past, from which only as many of the oldest texts are dropped as the two arrays demand, and the future is empty |
| TextEdit.Editor.Delete | libs/stb/stb_textedit.h:587-592 | exactly the range asked for is gone; the text before joins the past unless its characters can never fit, and the future is empty |
| TextEdit.Editor.Insert | libs/stb/stb_textedit.h:745-750 | the characters stand at the position asked for and all others keep their order; the text before joins the past and the future is empty |
| TextEdit.Editor.Undo | libs/stb/stb_textedit.h:1205-1271 | the text is the latest past one again and the present becomes the nearest future one; the redo record left leads on to the text that was there if and only if its characters fitted |
| TextEdit.Editor.Redo | libs/stb/stb_textedit.h:1273-1322 | the text is the nearest future one and the present joins the past; there is always room for the undo record |
| TextEdit.LostRedo | libs/stb/stb_textedit.h:1232-1234 | one insertion into an editor with one character of undo space, undone: the redo record left does not lead back |
| TextHistory.StepText | libs/stb/stb_textedit.h:587-750 | what every operation does to the text, part by part: where characters come, go and stay |
| TextHistory.ForgetLeast | libs/stb/stb_textedit.h:1161-1183 | no more of the past is forgotten than the new record needs |
| TextHistory.WalkRestores | libs/stb/stb_textedit.h:1205-1322 | undos and redos that end where they began restore the text and the whole history |
| TextHistory.UndoAllRedoAll | libs/stb/stb_textedit.h:1161-1322 | any edits that fit the arrays, undone one by one, give back text and past, and redone one by one lead to exactly the history after the edits |
| TextEdit.Editor.CanDoIsCanStep | libs/stb/stb_textedit.h:1232-1246 | the tests on the arrays before an undo are those of the history |
| TextEdit.Editor.DoAndUndo | libs/stb/stb_textedit.h:1161-1270 | any edits that fit, followed by as many undos, restore text and past |
| TextEdit.Editor.Run | libs/stb/stb_textedit.h:1161-1347 | any mix of edits, undos and redos gives exactly the history that these operations have with room for this many states and characters; all of them are carried out if the history allows all |
| RectPack.Context.constructor | libs/stb/stb_rect_pack.h:261-284 | an empty skyline from 0 to the width, and the given number of free nodes |
| RectPack.Context.FindMinY | libs/stb/stb_rect_pack.h:287-335 | the result is the greatest skyline height over the columns of the rectangle |
| RectPack.Context.ScanLeft | libs/stb/stb_rect_pack.h:361-387 | the best left-aligned position, the leftmost of the lowest under bottom-left |
| RectPack.Context.ScanRight | libs/stb/stb_rect_pack.h:406-437 | right-aligned positions are taken only if they are no higher and inside the target |
| RectPack.Context.FindBestPos | libs/stb/stb_rect_pack.h:343-443 | the position found is lowest among all columns, and under bottom-left the leftmost of these; none is found only if none is usable |
| Skyline.LeftAlign | libs/stb/stb_rect_pack.h:361-385 | moving a rectangle left to where the step below it begins never raises it |
| Skyline.RaisedSky | libs/stb/stb_rect_pack.h:460-495 | after an insertion no column is lower, and the rectangle's columns have its top |
| Skyline.RaisedRising | libs/stb/stb_rect_pack.h:460-504 | the skyline still rises strictly in x from 0 to the target width |
| Skyline.PlacedApart | libs/stb/stb_rect_pack.h:287-335 | a rectangle above the skyline is disjoint from all below it |
| RectPack.Context.PlaceAt | libs/stb/stb_rect_pack.h:460-495 | relinking gives the raised skyline; active and free nodes stay disjoint and complete |
| RectPack.Context.Release | libs/stb/stb_rect_pack.h:481-489 | frees exactly the nodes the rectangle covers |
| RectPack.Context.PackRectangle | libs/stb/stb_rect_pack.h:445-522 | the rectangle lies inside the target, apart from all placed before and at a lowest position, also when the search width was aligned up; failure means nothing fits or no node is free |
| RectPack.Context.NeverLater | libs/stb/stb_rect_pack.h:542-580 | a rectangle that fits nowhere at one moment of a run fits nowhere later |
| RectPack.Context.PackRects | libs/stb/stb_rect_pack.h:542-580 | over any number of calls, whatever order the sort gives, all packed rectangles are inside and pairwise disjoint and the flags tell which were packed; every turn of the run places its rectangle at a lowest position or finds none, and no failed rectangle would fit in the end |
| PngFilter.UnfilterRestores | libs/stb/stb_image_write.h:1092-1126 | reconstruction by section 6 of RFC 2083 undoes the filter, byte by byte |
| PngFilter.Paeth | libs/stb/stb_image_write.h:1083-1089 | the one of left, above and upper left that is nearest to their plane; ties go to the one named first |
| PngFilter.FilteredByRule | libs/stb/stb_image_write.h:1102-1125 | the filtered byte under each of the five filter types |
| PngFilter.EstimateSum | libs/stb/stb_image_write.h:1156-1160 | the estimate is a sum over bytes, each counted with its distance to zero modulo 256 |
| PngFilter.EncodeLine | libs/stb/stb_image_write.h:1092-1126 | every byte follows the rule of its filter type, and a reader restores the row, for every filter, stride and flip |
| PngFilter.BestFilter | libs/stb/stb_image_write.h:1156-1174 | the first filter of least estimate is chosen and its line kept |
| PngFilter.FilterImage | libs/stb/stb_image_write.h:1149-1178 | a reader restores all rows, each from its place in the pixels; the filter types are the forced one or the best per row |
| PngFilter.ImageData | libs/stb/stb_image_write.h:1129-1182 | decompressing and unfiltering gives the image, each row from its place in the pixels |
| TgaRle.PacketAt | libs/stb/stb_image_write.h:563-590 | every packet is between 1 and 128 pixels and stays inside the row; a run packet covers equal pixels and is as long as it can be; where a raw packet ends |
| TgaRle.PixelBack | libs/stb/stb_image_write.h:443-448 | a pixel is written from blue to red and then alpha, and read back as it was |
| TgaRle.WriteRow | libs/stb/stb_image_write.h:559-604 | a reader that takes blue, green, red and then alpha from the file gets the row back and stops where it ends |
| TgaRle.WriteImage | libs/stb/stb_image_write.h:544-607 | the same for all rows, bottom row first unless flipped |
| RadianceRle.WriteComponent | libs/stb/stb_image_write.h:725-756 | a reader gets the component back and stops exactly where it ends |
| RadianceRle.WriteScanline | libs/stb/stb_image_write.h:672-759 | a reader gets the width and all four components back; the four header bytes are stated literally |
| Fat16.FixedPoint | scripts/make_gpt_image.py:149-163 | a FAT size that needs exactly itself exists, and is unique, just for totals with (total + 995) mod 1026 below 1024 |
| Fat16.Settles | scripts/make_gpt_image.py:149-163 | for such a FAT16 volume the iteration reaches that size within three rounds |
| Fat16.NoSizeSettles | scripts/make_gpt_image.py:149-163 | a volume of 16445 sectors for which the size never settles, contrary to the comment |
| Fat16.FatSize | scripts/make_gpt_image.py:152-163 | the size returned is a fixed point; none is returned only where none exists or the volume is outside the FAT16 band |
| Fat16.WriteChain | scripts/make_gpt_image.py:226-230 | the chain links each cluster to the next and ends; clusters before it are untouched |
| Fat16.AddFile | scripts/make_gpt_image.py:220-237 | entry, chain and bytes of the file are stored; it fails just if the directory or the volume is full |
| Fat16.AddFiles | scripts/make_gpt_image.py:220-237 | all files are stored together |
| Fat16.ChainsDisjoint | scripts/make_gpt_image.py:220-237 | the clusters of different files are disjoint |
| Fat16.BuildFat16 | scripts/make_gpt_image.py:138-239 | a volume is built exactly when size and files suit; it has a FAT entry for every cluster, free entries after the files, and exactly the asked number of sectors |
| FatReader.ReadStored | scripts/make_gpt_image.py:220-239 | reading a file through its directory entry and chain gives its name and content |
| FatReader.LayoutBuilt | scripts/make_gpt_image.py:176-207 | a reader of the parameter block finds the areas where the builder put them |
| FatReader.DirectoryFrom | scripts/make_gpt_image.py:209-239 | reading the directory from any file on lists the remaining files and stops at the first unused entry |
| FatFields.BlockSays | scripts/make_gpt_image.py:179-195 | every field of the parameter block by its offset, total sectors included |
| FatFields.TailSays | scripts/make_gpt_image.py:196-207 | drive, serial number, label, type and signature by their offsets |
| FatFields.EntrySays | scripts/make_gpt_image.py:115-135 | name, attribute, zero fields, first cluster and size of a directory entry by their offsets |
| LittleEndian.GetFour | scripts/make_gpt_image.py:176-195 | a number of four bytes has its lowest byte first |
| LittleEndian.LeFour | scripts/make_gpt_image.py:176-195 | and is written so |
| FatReader.BuildVolume | scripts/make_gpt_image.py:138-239 | a reader that knows only the bytes lists exactly these files, with name and content, in order |
| GptImage.ImageSizes | scripts/make_gpt_image.py:272-288 | an image can be built for 10 to 129 MiB and for no other size |
| GptImage.Assemble | scripts/make_gpt_image.py:334-343 | all regions lie where they should and none overwrites another |
| GptImage.HeaderVerifies | scripts/make_gpt_image.py:242-266 | signature, revision and size of a header, and its checksum, taken with its own field zero |
| GptImage.BackAt | scripts/make_gpt_image.py:246-264 | every field after the header checksum by its offset |
| GptImage.EntryAt | scripts/make_gpt_image.py:290-296 | every field of the partition entry by its offset, and zeros after it |
| GptImage.MbrAt | scripts/make_gpt_image.py:300-318 | the protective entry by its offsets, and zeros around it |
| GptImage.BuildImage | scripts/make_gpt_image.py:269-343 | every field of the protective MBR, of both GPT headers and of the entries is where it belongs; the volume fills the partition exactly, the files can be read, and the image verifies |
| GptImage.Verifies | scripts/make_gpt_image.py:346-375 | the verifier accepts every image the builder returns, for every checksum function |
| Divide.TruncPair | libs/stb/stb_divide.h:147-243 | quotient and remainder belong together and the remainder has the sign of the dividend, over every built-in division meeting the two assumptions |
| Divide.TruncatingMeets | libs/stb/stb_divide.h:72-80 | a division that rounds towards zero meets the two assumptions |
| Divide.FlooringMeets | libs/stb/stb_divide.h:72-80 | so does one that rounds down |
| Divide.FloorPair | libs/stb/stb_divide.h:164-264 | likewise with the sign of the divisor |
| Divide.EuclPair | libs/stb/stb_divide.h:188-274 | likewise with a remainder that is never negative |
| WapPackage.Pack | scripts/make_wasmos_app.c:647-693 | the file is the sections of the package in order; the parser recovers flags, name, entry and the exact payload slice, and a reader of all sections the whole package |
| WapPackage.ParsePacked | scripts/wasm_inspect.py:61-113 | the walk over all sections ends exactly at the payload |
| WapPackage.UnpackPacked | scripts/make_wasmos_app.c:647-693 | every section of a packed file reads back as it was given |
| WapPackage.UnpackedIsPacked | scripts/make_wasmos_app.c:647-693 | a file from which all sections can be read is byte for byte what the packer writes for what was read |
| WapPackage.UnpackExact | scripts/make_wasmos_app.c:647-693 | the reader returns a package for the packer's file of it and for no other file |
| WapParser.ParseApp | scripts/wasm_inspect.py:61-113 | a file is accepted if and only if magic, version and header size match and name, entry, both record lists, regions, hints and payload lie inside it in order; the slices returned are those sections; not an application means exactly that the magic differs |
| WapParser.Accepts | scripts/wasm_inspect.py:61-113 | every file laid out as a package is accepted, with its name, entry, payload position and size |
| WapParser.Accepted | scripts/wasm_inspect.py:61-113 | whatever is accepted is laid out as a package |
| WapParser.SkippedIsSection | scripts/wasm_inspect.py:90-97 | the bytes skipped for a number of records are the encoding of that many records |
| WapParser.SkipSection | scripts/wasm_inspect.py:90-97 | encoded records are skipped exactly and read back |
| WapFormat.HeaderIs | scripts/make_wasmos_app.c:647-669 | a file starts with the header of a package exactly if its magic, version, numbers and tag are those of the package |

## Left out

- Hash mixing, CRC-32 values and the order `qsort` gives equal elements are parameters: any function, any permutation.
- Memory: allocation failure, pointer arithmetic, alignment, bitmap packing, and bit fields other than those of labels. The grid's map, ids and clumps are
  sets, maps and records in global coordinates; the packer's nodes are one array linked by index; grown arrays are sequences.
- ConnectedGrid.Grid.constructor: clusters are square, with sides of 4 to 64, and the map fills the compiled grid; other shapes of the compile-time macros are not modelled.
- ConnectedGrid.Grid.Query: stated outside a batch, as the source asks of its callers.
- HashMap.Map.Put: keys are values with equality; the string modes that copy or own key storage are not modelled, nor is the default element.
- Zlib.Compress: allocation of the output.
- Inflate: blocks with dynamic codes are not decoded, since the compressor writes none.
- TextEdit.Editor.Undo: the case in which redo records have to be discarded to make room is excluded by a precondition, because the code there moves one record more than its array holds (`libs/stb/stb_textedit.h:1155`), so nothing is defined afterwards.
- TextEdit.Editor.Redo: called only while since the last edit every undo could keep its characters; after one that could not, the records further on no longer match the text they would be applied to.
- TextEdit.Editor.Insert: insertion into the text always succeeds, and so it does in Replace; cursor movement, selection and layout are not modelled.
- RectPack.Context.FindMinY: the waste figure is computed as in the code, but nothing is claimed about it, nor which of several equally low positions best-fit takes.
- RectPack.Context.PackRectangle: coordinates are unbounded integers; that aligned widths never exhaust the nodes is not claimed.
- PngFilter.ImageData: chunk framing, checksums and the file header of PNG are not modelled.
- TgaRle.WriteImage: the file header is any byte string, and uncompressed output is not modelled.
- RadianceRle.WriteScanline: conversion of floats to bytes, and scanlines too narrow or too wide for run-length coding.
- Fat16.BuildFat16: names arrive as padded 8.3 names, labels and serial number as bytes; turning text into these is not modelled.
- GptImage.BuildImage: GUIDs and the partition name arrive as bytes.
- Divide: the compile-time shortcuts for platforms declared to truncate or to floor, and the pair of the smallest integer and -1.
- WapPackage.Pack: manifest parsing, command lines and files; decoding names as text.
- JPEG writing, noise, texture compression, float formatting, the test drivers and the kernel sources: floating point, fixed tables or plumbing.
