# Verified model of the JSON engine and the wired protocol stack

This project models the two parts of the device firmware that carry its hard logic and proves
properties of the model with Dafny.

* **The JSON engine** (`Middlewares/cJSON`): the parser, the printer into a growing or a fixed buffer, the
  in-place minifier, both comparisons, the doubly linked child lists with their merge sort, JSON Pointer,
  JSON Patch and JSON Merge Patch.
* **The wired stack** (`Middlewares/Eth`, `Drivers/BSP`): the DHCP client and its option field, datagram
  reassembly in `recvfrom`, the transmit ring under `send`, and names in DNS messages.

`dafny verify dfyconfig.toml` checks everything. There is one module per file.

## How the model is built

A `char` is one byte; a `CStr` is the bytes in front of the terminating NUL. A JSON item is a value of type
`JSON` that keeps member order and repeated keys; `Tree` is its meaning, an object being a map from keys
(folded to lower case when the case flag is off) to meanings, and `Canon` takes one to the other. Numbers are
reals. Code that changes things in place stays imperative: `Node` and `ChildList` for the linked children,
`PrintBuffer` and `ParseBuffer` for the two buffers, `Document` for the document under patches, arrays for
buffers written byte by byte, `DhcpClient`, `UdpSocket` and `TcpSocket` for the protocol state. Each such
method is tied to a function on values, and the laws are proved about those functions.

| part | modules | main results |
|---|---|---|
| strings, items | CStrings, Json | lookup is a map lookup; comparing names is an order, by their first difference |
| sorting, lists | Sorting, LinkedItems, ChildLists | `sort_list` on the heap is the merge sort of the members |
| comparing | Compare, CompareSorted, Rearranged, CompareInPlace | exactly what `cJSON_Compare` decides; the two comparisons agree; sorting operands in place only rearranges them |
| pointers | Pointer, PointerTokens | every token against RFC 6901; which tokens are indices |
| patches | DiffInPlace, Patch, TreePath, PatchEffect, MoveCopyTest, PatchAnswers, PatchLaw | what every operation does and answers; diff then patch; no patches exactly for equal documents |
| merge patches | MergePatch, MergeLaw | merging is RFC 7396; diff then merge |
| text | Text, Printer, Parsing, Parser, Tokens, RoundTrip, Layout, RawItems | parse undoes print, for nesting up to 1000 and no deeper; formatted text is compact text laid out |
| reading | Grammar, Unicode, Numbers | the parser accepts exactly the grammar of RFC 8259; UTF-16 escapes come out as UTF-8; numbers as they are spelled |
| minifying | Minify, MinifyLaw, Comments | minifying the formatted text gives the compact text; what is left of any text |
| where the laws end | Limits, EitherFlag, MixedCase, PatchCase | exactly over which names diff then patch and diff then merge reach their target, under either case flag |
| DHCP | DhcpOptions, DhcpFields, Dhcp | what the messages carry by option code; address history over every run; giving up on a silent server |
| sockets | Ring, Receive, Transmit | reassembly of all that arrived; bytes in order through a wrapping ring; exactly when `send` answers what |
| DNS | Dns, DnsPointers | names read back, compressed ones too; reading ends on every message; exactly when it overruns its buffer |

## Where code and documentation differ

The model follows the code.

* `cJSON_PrintPreallocated` needs two bytes more than the text, not the five its header asks for.
* `sort_list` merges ignoring case whatever its flag says, and it leaves the new head's `prev` as it was, so a
  sorted list is fit for further editing only if its first name was strictly the least.
* Escaping a key for a pointer works exactly for keys without `~` and `/`; decoding leaves ordinary bytes in
  place and writes an escaped `/` one position too far, so removing a member also works for a key whose only
  `~` is its last character, and for no other unclean key. A key that starts with `/` leaves an empty name. Diff
  then patch as a whole is right for all documents exactly over names without `~` and `/`.
* A `\u` without four hexadecimal digits is not refused but read as U+0000, which cuts the string there.
* For `cJSON_Minify` the three characters `/*/` are a whole comment.
* Decoding a token with one escape is right exactly for `~0` with nothing but zeros behind it.
* `decode_array_index_from_pointer` tests the first character where it means the current one, so letters count
  as digits behind a digit.
* `generate_merge_patch` walks lists sorted ignoring case with `strcmp`, and below the first level it ignores case
  whatever its flag says; where the two orders disagree on two names it can lose a member.
* The case-sensitive `create_patches` and `compare_json` walk lists that were merged ignoring case too, and
  `detach_path` removes members ignoring case, so case-sensitive diff then patch is right for all documents exactly
  over clean names on which the two orders agree.
* `cJSON_Compare` answers no for an object with a repeated key that means two things, even against a copy of itself.
* `parse_name` writes the terminator, and for the root a dot, without counting them against the room it is given.
* `parse_name` does not follow a pointer that leads to a pointer; it takes the second one for a label.
* `recvfrom` reports a datagram of zero bytes as PACK_COMPLETED, not PACK_FIRST.
* The DHCP client can never report a changed address on renewal, because renewal does not look at `yiaddr`.
* A datagram from a foreign port leaves the DHCP message type unset, so it can be taken for an OFFER, ACK or NAK.

## Model

| member | source | states |
|---|---|---|
| CStrings.CompareStrings | Middlewares/cJSON/cJSON_Utils.c:73-99 | the comparing loop gives the difference of the first bytes that differ, and zero exactly for equal (folded) names |
| CStrings.CompareKeysOrder | Middlewares/cJSON/cJSON.c:97-121 | comparing names is a total order on their folded forms |
| CStrings.FirstDifference | Middlewares/cJSON/cJSON.c:97-121 | two names compare as the first bytes in which they differ (folded), the end of one of them included |
| CStrings.SameLetters | Middlewares/cJSON/cJSON.c:97-121 | ignoring case, two bytes count as one exactly if they are equal or a capital letter and its small one |
| Json.GetObjectItem | Middlewares/cJSON/cJSON.c:1772-1798 | the search loop finds the first member with the key, or none |
| Json.LookupIsMap | Middlewares/cJSON/cJSON.c:1772-1798 | that lookup is the lookup in the map an object means, for repeated keys too |
| Json.SameMembersSameMap | Middlewares/cJSON/cJSON_Utils.c:570-577 | with distinct keys, reordering members leaves the meaning alone |
| Json.DetachRemovesKey | Middlewares/cJSON/cJSON.c:2116-2128 | with distinct keys, detaching a member takes exactly its key from the meaning |
| Json.AppendAddsKey | Middlewares/cJSON/cJSON.c:1895-1930 | adding a member under a new key adds exactly that key and keeps keys distinct |
| Sorting.SortPermutes | Middlewares/cJSON/cJSON_Utils.c:460-568 | sorting permutes the members |
| Sorting.SortOrders | Middlewares/cJSON/cJSON_Utils.c:460-568 | with the flag off the result is in non-decreasing order of the names |
| Sorting.SortStrict | Middlewares/cJSON/cJSON_Utils.c:460-568 | and strictly increasing when the keys are distinct |
| Sorting.SortKeepsMeaning | Middlewares/cJSON/cJSON_Utils.c:570-577 | sorting an object with distinct keys, under either flag, keeps its meaning |
| LinkedItems.SplitChain | Middlewares/cJSON/cJSON_Utils.c:485-502 | the two-speed walk finds the middle and cuts there; both parts are well linked and shorter; no `prev` is written |
| LinkedItems.IsIncreasing | Middlewares/cJSON/cJSON_Utils.c:474-483 | the early exit is taken exactly for strictly increasing lists |
| LinkedItems.MergeChains | Middlewares/cJSON/cJSON_Utils.c:507-568 | the merging loop relinks the nodes into one well linked chain in merge order, the head's `prev` untouched |
| LinkedItems.SortList | Middlewares/cJSON/cJSON_Utils.c:460-568 | `sort_list` ends; its chain is a permutation of the nodes, every later node's `prev` is its predecessor, the members are the merge sort, the head's `prev` is what it was |
| ChildLists.ChildList.GetItem | Middlewares/cJSON/cJSON.c:1743-1760 | the node at an index, or null behind the end |
| ChildLists.ChildList.Add | Middlewares/cJSON/cJSON.c:1844-1871 | appends to the child sequence and keeps the list well linked |
| ChildLists.ChildList.Detach | Middlewares/cJSON/cJSON.c:2071-2099 | removes one child, detaches its links, keeps the list well linked |
| ChildLists.ChildList.InsertBefore | Middlewares/cJSON/cJSON.c:2157-2167 | links an item in front of a child and keeps the list well linked |
| ChildLists.ChildList.InsertAt | Middlewares/cJSON/cJSON_Utils.c:668-702 | `insert_item_in_array`: inserts at an index, appends at the end, and refuses an index behind it, the list untouched |
| ChildLists.ChildList.Insert | Middlewares/cJSON/cJSON.c:2141-2168 | inserts at an index; behind the end it appends, at a negative index it does nothing |
| ChildLists.ChildList.Replace | Middlewares/cJSON/cJSON.c:2170-2203 | updates one position of the child sequence; replacing an item by itself changes nothing |
| ChildLists.ChildList.Sort | Middlewares/cJSON/cJSON_Utils.c:570-577 | the members come out sorted, and the list is still well linked backwards if and only if sorting the old members leads back to the first of them |
| ChildLists.ChildList.SortObject | Middlewares/cJSON/cJSON_Utils.c:1284-1287 | with the flag off: well linked backwards if and only if every other name came strictly behind the first one, repeated names included |
| Sorting.SortHead | Middlewares/cJSON/cJSON_Utils.c:507-568 | which member comes first, told before sorting |
| Sorting.HeadIsLastLeast | Middlewares/cJSON/cJSON_Utils.c:507-568 | with the flag off it is a least one, and of several the last one, because ties go to the second half |
| Sorting.HeadStaysIff | Middlewares/cJSON/cJSON_Utils.c:498-502 | with the flag off the head stays, and with it a sound `prev`, if and only if every other name comes strictly behind it |
| Sorting.HeadStaysFlagOn | Middlewares/cJSON/cJSON_Utils.c:498-502 | with the flag on it stays if the list is in `strcmp` order already or every other name comes strictly behind it ignoring case |
| MixedCase.HeadStaysAgreeing | Middlewares/cJSON/cJSON_Utils.c:498-502 | with the flag on the same if and only if, where the two orders agree on the names |
| Compare.CompareItems | Middlewares/cJSON/cJSON.c:2822-2922 | for every pair of trees: yes exactly when both mean the same and neither holds an invalid item or a repeated key with two meanings |
| Compare.ComparePointedItems | Middlewares/cJSON/cJSON.c:2799-2826 | NULL is equal to nothing, an item that is not invalid is equal to itself, and two items as the row above says |
| CompareInPlace.CompareWalking | Middlewares/cJSON/cJSON_Utils.c:579-665 | the sort-then-walk loops: the answer, whose meaning the next rows give, and what they leave of both operands, sorted up to the first difference |
| CompareInPlace.CompareKeeps | Middlewares/cJSON/cJSON_Utils.c:579-665 | what is left of an operand has the same meaning under either flag, distinct keys, names and size: it is only rearranged |
| CompareInPlace.CompareSymmetric | Middlewares/cJSON/cJSON_Utils.c:579-665 | the answer does not depend on the order of the operands, for all trees |
| CompareSorted.CompareJsonMeaning | Middlewares/cJSON/cJSON_Utils.c:579-665 | with distinct keys the answer depends on the meanings only: equal up to raw items |
| CompareSorted.ComparersAgree | Middlewares/cJSON/cJSON_Utils.c:579-665 | with distinct keys and no raw or invalid items it is the answer of `cJSON_Compare`, equality of meanings |
| CompareSorted.CompareIsEquivalence | Middlewares/cJSON/cJSON_Utils.c:579-665 | on such trees the answer is reflexive, symmetric and transitive |
| CompareSorted.EqualsItsCopy | Middlewares/cJSON/cJSON_Utils.c:579-665 | `compare_json` calls every tree equal to its copy, under either flag |
| CompareSorted.CopiesAgreeIff | Middlewares/cJSON/cJSON.c:2885-2914 | so the two comparisons agree on a tree and its copy if and only if it holds no invalid item and no repeated key with two meanings |
| MixedCase.CompareObeysFlagIff | Middlewares/cJSON/cJSON_Utils.c:629-655 | over names distinct ignoring case, `compare_json` with the flag on decides sameness of meaning for all documents if and only if the two orders agree on the names |
| Pointer.ComparePointers | Middlewares/cJSON/cJSON_Utils.c:102-136 | the loop matches a name with the first token of a pointer |
| Pointer.CleanTokenMatches | Middlewares/cJSON/cJSON_Utils.c:102-136 | a token without `~` and `/` is matched by exactly the names that equal it (folded) |
| PointerTokens.TokenMatchesIff | Middlewares/cJSON/cJSON_Utils.c:102-136 | for every token: a name is matched exactly if the token, read by section 4 of RFC 6901 with `~0` and `~1`, is that name (folded); a token with another `~` matches nothing |
| PointerTokens.FollowsStandardPointer | Middlewares/cJSON/cJSON_Utils.c:281-326 | the walk along a pointer that a standard writer wrote reaches what its names lead to, whatever bytes are in the names |
| Pointer.EncodeStringAsPointer | Middlewares/cJSON/cJSON_Utils.c:155-177 | writes the encoded key over whatever the buffer holds, byte by byte; the first byte for a `/` keeps what was there |
| Pointer.EscapingWorksIffClean | Middlewares/cJSON/cJSON_Utils.c:155-177 | escaping and matching again works, whatever the buffer held, if and only if the key has no `~` and no `/` |
| Pointer.DecodePointerInPlace | Middlewares/cJSON/cJSON_Utils.c:339-370 | the decoding loop in place |
| Pointer.DecodeClean | Middlewares/cJSON/cJSON_Utils.c:339-370 | clean tokens decode to themselves |
| Pointer.DecodeEscapedSlash | Middlewares/cJSON/cJSON_Utils.c:339-370 | an escaped `/` does not come out as `/` |
| PointerTokens.DecodeOneEscape | Middlewares/cJSON/cJSON_Utils.c:339-370 | what decoding a token with one escape leaves: the second byte of the escape stays, as a slash for `~1`, and the last byte is cut off |
| PointerTokens.DecodesRightIff | Middlewares/cJSON/cJSON_Utils.c:339-370 | so such a token decodes right exactly if it is `~0` with nothing but zeros behind it |
| Pointer.DecodeArrayIndex | Middlewares/cJSON/cJSON_Utils.c:254-279 | no leading zeros; reads on while characters are not below `0` and the first one is not above `9`, modulo the 32-bit size_t |
| Pointer.IndexRightIff | Middlewares/cJSON/cJSON_Utils.c:254-279 | the decoded index is what the token says if and only if the token is a decimal without leading zeros below 2^32 |
| Pointer.WrongIndices | Middlewares/cJSON/cJSON_Utils.c:254-279 | `1a` reads as 59 and an empty token as 0 |
| PointerTokens.IndexRefusedIff | Middlewares/cJSON/cJSON_Utils.c:254-279 | a token is refused as an index exactly if it is a zero with more behind it, begins above `9`, or holds a character below `0` |
| PointerTokens.IndexOfDigits | Middlewares/cJSON/cJSON_Utils.c:254-279 | digits without a leading zero are read as their number modulo 2^32 |
| Pointer.IndexRoundTrip | Middlewares/cJSON/cJSON_Utils.c:254-279 | the decimal of every index below 2^32 decodes to that index |
| Pointer.GetItemFromPointer | Middlewares/cJSON/cJSON_Utils.c:281-326 | the walk down the tree along a pointer |
| Pointer.FollowCleanPath | Middlewares/cJSON/cJSON_Utils.c:281-326 | on clean tokens it is the walk token by token, for reading and for replacing |
| Patch.Document.DetachItem | Middlewares/cJSON/cJSON_Utils.c:406-457 | `detach_path`: what is cut out and what is left, ignoring case for members |
| Patch.Document.Apply | Middlewares/cJSON/cJSON_Utils.c:782-1009 | `apply_patch` with every status it returns and the document it leaves, failures included |
| Patch.Document.ApplyPatches | Middlewares/cJSON/cJSON_Utils.c:1011-1038 | patches in order up to the first failure |
| PatchAnswers.OperationNames | Middlewares/cJSON/cJSON_Utils.c:717-756 | the operation is told by the first member `op`: the six names of RFC 6902, each by itself, and nothing else |
| PatchAnswers.MalformedAnswers | Middlewares/cJSON/cJSON_Utils.c:793-806 | 2 exactly without a path that is a string, 3 exactly for an operation that is none of the six; the document is left alone |
| PatchAnswers.RootAnswers | Middlewares/cJSON/cJSON_Utils.c:813-860 | at the root add and replace put the value in its place or return 7, remove leaves an invalid item |
| PatchAnswers.RemoveAnswers | Middlewares/cJSON/cJSON_Utils.c:862-878 | with a clean path remove takes exactly that part out and returns 0, or returns 13 where there is none and changes nothing |
| PatchAnswers.AddPatchAnswers | Middlewares/cJSON/cJSON_Utils.c:916-1009 | add returns 7 without a value, 9 without a container as parent, 11 for a name that is no index, 10 for an index behind the end, each exactly then and with the document left alone; otherwise the part is in its place |
| PatchAnswers.ReplaceAnswers | Middlewares/cJSON/cJSON_Utils.c:862-1009 | replace returns 13 where there is no part; without a value it returns 7 with the part gone; otherwise the part means the value |
| PatchAnswers.SourceAnswers | Middlewares/cJSON/cJSON_Utils.c:880-915 | move and copy return 4 without a source and 5 if nothing is there, and change nothing |
| PatchAnswers.DashAppends | Middlewares/cJSON/cJSON_Utils.c:954-960 | `-` puts the value behind the last element, although it is no index |
| PatchAnswers.AppliedInHalves | Middlewares/cJSON/cJSON_Utils.c:1011-1038 | a list of patches in two halves: the second goes on where the first ended, unless that failed |
| Patch.JoinPath | Middlewares/cJSON/cJSON_Utils.c:1091-1098 | the path of a composed patch: parent, slash and the encoded suffix as a C string, which ends at the terminator `sprintf` left when the suffix starts with a slash |
| Patch.AppendArrayPatches | Middlewares/cJSON/cJSON_Utils.c:1143-1186 | the three array loops append common, removed and added elements in that order |
| Patch.AppendMemberPatches | Middlewares/cJSON/cJSON_Utils.c:1188-1247 | one round of the walk over both sorted member lists: the patches it adds and the members it passes |
| DiffInPlace.WalkPasses | Middlewares/cJSON/cJSON_Utils.c:1199-1245 | which list the walk moves on, and what is left behind, told by how the first names compare |
| Patch.GeneratePatches | Middlewares/cJSON/cJSON_Utils.c:1254-1282 | the generated patch list, as a list of edits with token paths, and what is left of both documents |
| PatchAnswers.NoEditsIff | Middlewares/cJSON/cJSON_Utils.c:1114-1252 | for all documents and under either flag: no patches exactly where `compare_json` says yes |
| PatchAnswers.GeneratedMembers | Middlewares/cJSON/cJSON_Utils.c:1069-1106 | a generated patch written out by the member names of RFC 6902: `op`, `path` and, for add and replace, `value` |
| DiffInPlace.DiffKeeps | Middlewares/cJSON/cJSON_Utils.c:1188-1196 | what the generator leaves of a document is only rearranged: same meaning, distinct keys, names and size |
| TreePath.PathMeaning | Middlewares/cJSON/cJSON_Utils.c:281-326 | reading and replacing along a clean path act on the meaning alike |
| PatchEffect.RemoveEffect | Middlewares/cJSON/cJSON_Utils.c:782-1009 | a remove with a clean path takes exactly that part from the meaning |
| PatchEffect.AddPatchEffect | Middlewares/cJSON/cJSON_Utils.c:782-1009 | an add puts exactly that part in, shifting array elements |
| PatchEffect.ReplaceEffect | Middlewares/cJSON/cJSON_Utils.c:782-1009 | a replace, which is detach and add, changes exactly that part |
| MoveCopyTest.TestEffect | Middlewares/cJSON/cJSON_Utils.c:806-811 | a test rearranges what it compares but changes no meaning, and succeeds exactly if the part is there and means what the value means, up to raw items |
| MoveCopyTest.CopyEffect | Middlewares/cJSON/cJSON_Utils.c:880-1009 | a copy puts the part found at its source in at the path, or returns 5 if there is none |
| MoveCopyTest.MoveEffect | Middlewares/cJSON/cJSON_Utils.c:880-1009 | a move takes the part out first and puts it in at the path in what is left |
| PatchLaw.PatchSimulatesEdit | Middlewares/cJSON/cJSON_Utils.c:782-1009 | applying a composed patch simulates its edit on the meaning, with status 0 |
| PatchLaw.EditsAchieve | Middlewares/cJSON/cJSON_Utils.c:1114-1252 | the edits for two documents turn the meaning of the first into the overlay of the second, below any path, leaving the rest alone |
| PatchLaw.DiffThenPatch | Middlewares/cJSON/cJSON_Utils.c:1114-1252 | diff then patch, applied to `from` or any document that means the same, returns 0 and yields what `to` means, if and only if no raw item faces a different raw item; keys stay distinct |
| PatchLaw.DiffThenPatchLeft | Middlewares/cJSON/cJSON_Utils.c:1188-1267 | the same for duplicates of the two documents as the generator leaves them |
| PatchLaw.DiffThenPatchComparesEqual | Middlewares/cJSON/cJSON_Utils.c:1254-1267 | so both comparisons call the patched document equal to `to` when there are no raw or invalid items |
| MergePatch.MergeInto | Middlewares/cJSON/cJSON_Utils.c:1294-1351 | `merge_patch` with its member loop |
| MergePatch.MergeMeaning | Middlewares/cJSON/cJSON_Utils.c:1294-1351 | on meanings it is the MergePatch function of section 2 of RFC 7396, in both case modes, for all targets and patches with distinct keys; keys stay distinct |
| MergePatch.GenerateMergePatch | Middlewares/cJSON/cJSON_Utils.c:1363-1439 | `generate_merge_patch` with its walk, NULL included, and what is left of both documents; common members are compared, and so sorted, first |
| MergePatch.MergeDiffKeeps | Middlewares/cJSON/cJSON_Utils.c:1378-1428 | what it leaves of a document is only rearranged |
| MergeLaw.GenerateMeaning | Middlewares/cJSON/cJSON_Utils.c:1363-1439 | with distinct keys on which `strcmp` and the case-blind order agree, the generated patch means the field-by-field difference of the meanings |
| MergeLaw.DiffThenMerge | Middlewares/cJSON/cJSON_Utils.c:1363-1439 | no patch exactly for two objects that compare equal; otherwise merging it into `from`, or any document that means the same, gives what `to` means if and only if the change is expressible, that is, no null member has to be set |
| MergeLaw.DiffThenMergeNullFree | Middlewares/cJSON/cJSON_Utils.c:1294-1351 | without null members in `to` the merged result compares equal to `to` |
| Limits.PatchReachesIff | Middlewares/cJSON/cJSON_Utils.c:1114-1252 | over any set of names, diff then patch reaches its target for all documents (distinct keys, arrays below 2^32, no raw or invalid items in `to`) and whatever fresh memory holds, if and only if no name holds `~` or `/` |
| Limits.UncleanKeyMisses | Middlewares/cJSON/cJSON_Utils.c:1214-1226 | for every key with `~` or `/`, and either case flag, going from an empty array under it to one with an element returns 9 and changes nothing |
| Limits.RemovableIsNotEnough | Middlewares/cJSON/cJSON_Utils.c:406-457 | a key whose only unclean character is a `~` at its end can be removed, yet a change below it fails so |
| Limits.RemovalWorksIff | Middlewares/cJSON/cJSON_Utils.c:406-457 | over every key, the generated removal of the only member works, whatever fresh memory holds, if and only if the key is clean or its only unclean character is a `~` at its end |
| Limits.DecodedLength | Middlewares/cJSON/cJSON_Utils.c:339-370 | decoding an encoded key gives one character per character and one more per `/`, and nothing for a key that starts with `/` |
| MixedCase.SortObeysFlagIff | Middlewares/cJSON/cJSON_Utils.c:507-513 | with the flag on, every arrangement of members with names distinct ignoring case comes out in `strcmp` order if and only if the two orders agree on the names |
| MixedCase.MixedCaseLosesMember | Middlewares/cJSON/cJSON_Utils.c:1384-1436 | under either flag, for any two names in one order ignoring case and the other for `strcmp`, the merge patch from both members to the second takes away both |
| MixedCase.MergeBlindBelow | Middlewares/cJSON/cJSON_Utils.c:1417-1424 | with the flag on, two names that differ in case only lose a member below the first level |
| MixedCase.MergeReachesIff | Middlewares/cJSON/cJSON_Utils.c:1363-1439 | over any set of names and under either case flag, diff then merge reaches its target for all documents (`to` without nulls and raw items) if and only if the two orders agree on the names |
| EitherFlag.SameByEitherFlag | Middlewares/cJSON/cJSON.c:1772-1798 | over names that differ in more than case, documents that mean the same under one case flag do so under the other |
| PatchCase.EditsByEitherFlag | Middlewares/cJSON/cJSON_Utils.c:1114-1252 | where the two orders agree on the names, both generators give the same patches |
| PatchCase.PatchesByEitherFlag | Middlewares/cJSON/cJSON_Utils.c:1011-1063 | and applying them gives the same status and document under either flag |
| PatchCase.MixedCaseUnpatched | Middlewares/cJSON/cJSON_Utils.c:1188-1247 | case-sensitive: for any two clean names in one order ignoring case and the other for `strcmp`, going from both members to the second removes both |
| PatchCase.CaseOnlyUnpatched | Middlewares/cJSON/cJSON_Utils.c:440-443 | case-sensitive: for names that differ in case only, removing the second member removes the first |
| PatchCase.CaseSensitiveReachesIff | Middlewares/cJSON/cJSON_Utils.c:1269-1282 | over any set of names, case-sensitive diff then patch reaches its target for all documents and whatever fresh memory holds, if and only if no name holds `~` or `/` and the two orders agree on the names |
| Printer.PrintBuffer.Ensure | Middlewares/cJSON/cJSON.c:373-458 | room for the bytes asked for and one more, or failure, exactly when the cap allows; what is printed so far survives the move |
| Printer.PrintBuffer.PrintString | Middlewares/cJSON/cJSON.c:827-946 | the escaped string and its terminator, with exactly the memory the counting loop computed |
| Printer.PrintBuffer.PrintNumber | Middlewares/cJSON/cJSON.c:474-538 | the number text as `sprintf` gives it, refused above 25 characters |
| Printer.PrintBuffer.PrintValue | Middlewares/cJSON/cJSON.c:1267-1338 | prints the text at the offset, and succeeds exactly if no item is invalid, no number text is longer than 25 and the text and two bytes fit the cap |
| Printer.PrintBuffer.PrintArray | Middlewares/cJSON/cJSON.c:1435-1494 | the same for arrays, depth restored |
| Printer.PrintBuffer.PrintObject | Middlewares/cJSON/cJSON.c:1606-1717 | the same for objects, depth restored |
| Printer.PrintToText | Middlewares/cJSON/cJSON.c:1087-1150 | the text, exactly if the tree is printable and the size with two bytes is an int |
| Printer.PrintPreallocated | Middlewares/cJSON/cJSON.c:1192-1209 | succeeds exactly if the tree is printable and the caller's buffer has two bytes more than the text |
| Layout.FormattedIsLaidOut | Middlewares/cJSON/cJSON.c:1267-1717 | the formatted text is the compact text laid out by a reader that knows only brackets, commas, colons and literals: line ends and tabs by depth in objects, a blank behind commas in arrays, nothing else |
| RawItems.RawPrints | Middlewares/cJSON/cJSON.c:1267-1338 | a raw item is printed as it is, so the text is that of the tree it stands in |
| RawItems.ParseRaw | Middlewares/cJSON/cJSON.c:1000-1077 | parsing the compact text gives the tree with every raw item replaced by what it stands for |
| RawItems.EscapeSizes | Middlewares/cJSON/cJSON.c:854-940 | which bytes of a string are escaped, and with two or six characters |
| Parser.ParseBuffer.SkipWhitespace | Middlewares/cJSON/cJSON.c:963-981 | skips bytes up to 32, stepping back onto the terminator |
| Parser.ParseBuffer.EncodeUtf8 | Middlewares/cJSON/cJSON.c:635-689 | the encoding loop writes the UTF-8 bytes of a code point, last to first |
| Parser.ParseBuffer.ScanString | Middlewares/cJSON/cJSON.c:711-735 | where the closing quote is, and how many escapes were skipped |
| Parser.DecodedFits | Middlewares/cJSON/cJSON.c:711-802 | two-pass bound: on every input, also where malformed `\u` digits make the loops disagree on where escapes start, the decoded bytes fit what the scanning loop computed |
| Parser.ParseBuffer.DecodeString | Middlewares/cJSON/cJSON.c:745-802 | the decoding loop, in an array of the computed size: no write outside it, on success and on failure |
| Parser.ParseBuffer.ParseStringItem | Middlewares/cJSON/cJSON.c:698-824 | `parse_string`: the decoded string or failure, which the `Unicode` rows give a meaning, the offset inside the buffer either way |
| Unicode.CodePointReads | Middlewares/cJSON/cJSON.c:577-692 | for every code point but U+0000 that is no surrogate: its escape, one unit or a surrogate pair with digits of either case, parses to the bytes that are its UTF-8 |
| Unicode.StringReadsPieces | Middlewares/cJSON/cJSON.c:698-824 | a literal of plain bytes, two-character escapes, code points and garbled escapes is read to its closing quote as the bytes they mean, up to the first NUL |
| Unicode.TextReadsPieces | Middlewares/cJSON/cJSON.c:1000-1077 | and so is a whole text that is one literal |
| Unicode.RefusedEscape | Middlewares/cJSON/cJSON.c:591-798 | behind any such pieces an unknown escape, a lone low surrogate or a high one without a low one makes the string fail |
| Unicode.GarbledReads | Middlewares/cJSON/cJSON.c:540-571 | a `\u` without four hexadecimal digits is read as U+0000 |
| Parser.ParseBuffer.ParseNumberItem | Middlewares/cJSON/cJSON.c:266-340 | at most 63 characters of the number alphabet go to `strtod` |
| Parser.ParseBuffer.ParseItem | Middlewares/cJSON/cJSON.c:1212-1264 | parser totality: ends on every terminated input, offset inside the buffer, depth at most 1000 and restored on success, result that of the grammar function |
| Parser.ParseBuffer.ParseArrayItem | Middlewares/cJSON/cJSON.c:1341-1432 | the same for arrays |
| Parser.ParseBuffer.ParseObjectItem | Middlewares/cJSON/cJSON.c:1497-1603 | the same for objects |
| Parser.ParseWithOpts | Middlewares/cJSON/cJSON.c:1000-1077 | the parsed document or NULL, and an end position inside the text |
| Parsing.ParseValue | Middlewares/cJSON/cJSON.c:1212-1264 | every successful value strictly advances and stays in front of the terminator |
| Grammar.ValueIff | Middlewares/cJSON/cJSON.c:1212-1603 | at every position and depth `parse_value` returns a value and an end exactly if the grammar of RFC 8259 derives the text between from that value, over the string and number tokens, with nesting up to 1000 |
| Grammar.TextIff | Middlewares/cJSON/cJSON.c:1000-1077 | `cJSON_ParseWithOpts` returns a document exactly for the texts that hold it so, behind a byte order mark and white space; what follows counts only if the end is required |
| Numbers.NumberTextReads | Middlewares/cJSON/cJSON.c:266-340 | every number of section 6 of RFC 8259 is read to its end as the number its sign, digits, fraction and exponent spell |
| Numbers.NumberParses | Middlewares/cJSON/cJSON.c:266-340 | so `parse_number` gives that number for a text of up to 63 characters |
| Numbers.DigitsJoined | Middlewares/cJSON/cJSON.c:266-340 | digits count by their places |
| Tokens.StringReads | Middlewares/cJSON/cJSON.c:698-824 | a printed string, any bytes but NUL, parses back to itself with its length |
| Tokens.NumberReads | Middlewares/cJSON/cJSON.c:266-340 | a number text that `strtod` takes back is read where it stands when no number character follows |
| Tokens.IntegerReadsBack | Middlewares/cJSON/cJSON.c:266-340 | the plain decimal of an integer of up to 15 digits is such a text |
| RoundTrip.ReadsValue | Middlewares/cJSON/cJSON.c:1267-1338 | printed text anywhere in a buffer parses back to its tree, within the nesting limit and not beyond |
| RoundTrip.ParsePrinted | Middlewares/cJSON/cJSON.c:1000-1077 | parse undoes print, compact and formatted, to the end of the text: the same tree, member order included, if and only if it is nested at most 1000 deep, for every number format that `strtod` undoes |
| RoundTrip.ParsePrintedIntegers | Middlewares/cJSON/cJSON.c:1000-1077 | so for all trees of integers of up to 15 digits, strings, literals, arrays and objects |
| Minify.CopyLiteral | Middlewares/cJSON/cJSON.c:2670-2684 | string literals are copied as they are; an unterminated one is found out |
| Minify.MinifyInPlace | Middlewares/cJSON/cJSON.c:2629-2697 | in place, writing never ahead of reading; runs over the terminator exactly if a string or block comment does not end |
| Comments.MinifiesParts | Middlewares/cJSON/cJSON.c:2629-2697 | a text of blanks, comments, literals and other characters is left with its literals and other characters, byte for byte and in order; with an unended comment or literal the code runs over the terminator |
| Comments.EveryTextIsParts | Middlewares/cJSON/cJSON.c:2629-2697 | and every text is of that form |
| MinifyLaw.MinifyPrinted | Middlewares/cJSON/cJSON.c:2629-2697 | minifying the formatted or the compact text of a tree without raw items gives the compact text byte for byte |
| DhcpOptions.ReadOptions | Middlewares/Eth/dhcp.c:487-555 | the option loop, reading on behind the message where the code does |
| DhcpOptions.LoopIsWalk | Middlewares/Eth/dhcp.c:487-555 | on every well-formed list, options of their defined sizes, the loop extracts what a generic type-length-value walk finds |
| DhcpOptions.LoopInStepIff | Middlewares/Eth/dhcp.c:487-555 | on every list the generic walk accepts, the loop stands where the walk stands if and only if every message type has length 1 and every subnet mask, lease time and server identifier length 4 |
| DhcpOptions.FillDiscover | Middlewares/Eth/dhcp.c:246-285 | the option field of a DISCOVER: cookie, options, end option, zeros; fits for every host name up to 255 bytes |
| DhcpOptions.FillRequest | Middlewares/Eth/dhcp.c:329-387 | the same for a REQUEST, which `DhcpFields` reads by the codes of RFC 2132 |
| DhcpOptions.FillDecline | Middlewares/Eth/dhcp.c:405-442 | the same for a DECLINE |
| DhcpOptions.SentOptionsSized | Middlewares/Eth/dhcp.c:246-442 | for every host name up to 255 bytes the options of the three senders have codes, lengths and sizes a reader expects |
| DhcpOptions.FieldReads | Middlewares/Eth/dhcp.c:487-555 | a field so filled is well formed, and the option loop reads its options back |
| DhcpOptions.SentReads | Middlewares/Eth/dhcp.c:238-455 | read back, the three messages say DISCOVER, REQUEST and DECLINE, and name the chosen server exactly where the code puts it in |
| DhcpFields.FieldHolds | Middlewares/Eth/dhcp.c:246-285 | a filled field of 312 bytes holds its options and nothing else, behind the cookie |
| DhcpFields.DiscoverCarries | Middlewares/Eth/dhcp.c:246-281 | a DISCOVER by the codes of RFC 2132: type 1 in option 53, client identifier 61, host name 12, parameter list 55, and nothing else |
| DhcpFields.RequestCarries | Middlewares/Eth/dhcp.c:329-383 | a REQUEST by its codes: the requested address in option 50 and the server in option 54 exactly if the destination ends in 255 |
| DhcpFields.DeclineCarries | Middlewares/Eth/dhcp.c:405-438 | a DECLINE by its codes: the declined address in option 50, the server in option 54 |
| DhcpFields.PadsAndEnd | Middlewares/Eth/dhcp.c:489-498 | zeros between options are skipped, and 255 ends the list |
| DhcpFields.KeptByCode | Middlewares/Eth/dhcp.c:504-548 | the mask is option 1, gateway and DNS server the first addresses of options 3 and 6, the server option 54; the last one of a code wins, and without one the client keeps what it had |
| DhcpFields.TypeByCode | Middlewares/Eth/dhcp.c:499-503 | the message type is option 53 |
| DhcpFields.LeaseByCode | Middlewares/Eth/dhcp.c:530-540 | the lease time is option 51, four bytes with the high one first |
| Dhcp.DhcpClient.ParseMessage | Middlewares/Eth/dhcp.c:458-558 | the message type returned: of the message, 0 for a foreign hardware address, unset for a foreign port |
| Dhcp.DhcpClient.CheckTimer | Middlewares/Eth/dhcp.c:707-761 | resend while retries are left and the time is over; otherwise fall back or fail |
| Dhcp.DhcpClient.RunOnce | Middlewares/Eth/dhcp.c:560-699 | one call of `DHCP_run`: new state, result and messages sent |
| Dhcp.DhcpClient.constructor | Middlewares/Eth/dhcp.c:801-828 | the initial state, with the hardware address and host name given |
| Dhcp.AddressHistory | Middlewares/Eth/dhcp.c:560-699 | after every run: in REQUEST, LEASED and REREQUEST the address is that of the last OFFER taken; LEASED and REREQUEST imply an ACK and a passed probe since; REREQUEST implies old address equals current; retries within bounds |
| Dhcp.NeverChanged | Middlewares/Eth/dhcp.c:663-681 | no run and no reply makes renewal report a changed address |
| Dhcp.RequestsAskForOffer | Middlewares/Eth/dhcp.c:301-394 | every REQUEST ever sent, read off its bytes: the first goes to everyone from no address and asks in option 50 for the address of the last OFFER, naming the server in option 54; a renewal goes to the server from that address |
| Dhcp.DeclinesOffer | Middlewares/Eth/dhcp.c:405-455 | every DECLINE ever sent, read off its bytes, refuses the address of the last OFFER, to everyone, naming the server |
| Dhcp.MessageFitsState | Middlewares/Eth/dhcp.c:560-699 | at most one message goes out in a call, and its type, read off its bytes, says which state the client is in behind it |
| Dhcp.LeaseBegins | Middlewares/Eth/dhcp.c:608-620 | a lease begins with an ACK, and its seconds count from there |
| Dhcp.RenewsBehindHalf | Middlewares/Eth/dhcp.c:639-661 | a client with a lease asks for it again at the first poll behind half of it, and never if it is infinite |
| Dhcp.ResendsBehindTen | Middlewares/Eth/dhcp.c:707-741 | a waiting client that hears nothing sends again at the first poll more than ten seconds behind the last message |
| Dhcp.TypeByMessage | Middlewares/Eth/dhcp.c:477-557 | 0 for nothing or another client's message, what the variable held for a port other than 67, and otherwise the last option 53 |
| Dhcp.SilentServer | Middlewares/Eth/dhcp.c:707-761 | over any silent run the client fails exactly when more polls were due than its rank, back in INIT, having sent as many messages as its rank, at most five |
| Dhcp.SilentRounds | Middlewares/Eth/dhcp.c:707-761 | with time going on it fails within six rounds of eleven seconds and a poll |
| Dhcp.MessagesTaken | Middlewares/Eth/dhcp.c:590-685 | OFFER, ACK and NAK move the client exactly when read from port 67 for this client, or on a foreign datagram while the unset type happens to say so; the types are 2, 5 and 6 |
| Dhcp.TypeIsSetIff | Middlewares/Eth/dhcp.c:477-557 | the message type is settled by the inputs if and only if there is no datagram from a foreign port |
| Dhcp.RunIsSetIff | Middlewares/Eth/dhcp.c:560-699 | and the whole call if and only if so, or in a state that looks at no message |
| Ring.WrapKeepsPlace | Drivers/BSP/src/w5500.c:223-238 | a wrapping 16-bit pointer stays where it is on every ring size of the chip |
| Ring.WriteRing | Drivers/BSP/src/w5500.c:156-185 | bytes written behind a window extend it and leave it alone, across the wrap |
| Ring.ReadRing | Drivers/BSP/src/w5500.c:125-154 | reads the window from a pointer on |
| Receive.UdpSocket.Take | Drivers/BSP/src/w5500.c:240-255 | takes bytes off the front of what is waiting |
| Receive.UdpSocket.ReadHeader | Middlewares/Eth/socket.c:703-741 | address, port and length of the next datagram |
| Receive.HeaderReads | Middlewares/Eth/socket.c:727-734 | the eight bytes in front of a datagram are address, port and length, high bytes first |
| Receive.UdpSocket.RecvFrom | Middlewares/Eth/socket.c:652-846 | each read takes a piece of one datagram; the remaining size is its unread rest; PACK_REMAINED is set exactly when that is not zero (how much a read takes is in the next row); closed, empty and zero-length cases |
| Receive.ReadTakes | Middlewares/Eth/socket.c:740-846 | a read hands over all that is left of the datagram if it fits, and otherwise as much as fits; the rest stays, and the datagrams behind it are not touched |
| Receive.Reassembly | Middlewares/Eth/socket.c:652-846 | over any stream and any reads, the pieces split where PACK_REMAINED goes out are the datagrams in order |
| Receive.AllGetThrough | Middlewares/Eth/socket.c:652-846 | after any run, as many reads as bytes and datagrams are left, of any lengths above zero, give the caller all datagrams that arrived, in order |
| Transmit.TcpSocket.Store | Drivers/BSP/src/w5500.c:223-238 | appends to what is pending in the ring |
| Transmit.TcpSocket.SendBytes | Middlewares/Eth/socket.c:349-421 | `send` with both status checks: the answer and state that the next two rows pin down, and nothing unsent is overwritten; a SEND starts only on an empty ring |
| Transmit.SendAnswersIff | Middlewares/Eth/socket.c:349-421 | each of the five answers exactly when: nothing to send; no connection, or lost behind the gate; a SEND on its way that timed out, or not; otherwise the number of bytes, as many as the ring holds |
| Transmit.SendLeaves | Middlewares/Eth/socket.c:349-421 | the socket is closed exactly by a timeout or a connection lost behind the gate, and bytes enter the ring exactly as reported |
| Transmit.PiecesGoOut | Middlewares/Eth/socket.c:349-421 | pieces that fit the ring, offered one after the other, all go out, joined |
| Transmit.TcpSocket.CloseSocket | Middlewares/Eth/socket.c:220-265 | what `close` does to a sending socket: flags released, unsent bytes thrown away |
| Transmit.TcpSocket.Transmits | Drivers/BSP/inc/w5500.h:599-624 | the chip takes bytes off the front in order and reports SENDOK behind the last |
| Transmit.SendsOneAtATime | Middlewares/Eth/socket.c:360-386 | a new SEND only after the one before reported SENDOK, and then there is room for all the ring can hold |
| Transmit.BytesInOrder | Middlewares/Eth/socket.c:349-421 | over any run, what left, what is pending and what a close threw away are the accepted bytes in order; an open socket throws nothing away |
| Dns.MakeQuery | Middlewares/Eth/dns.c:416-467 | the query: header, labels, type and class |
| Dns.QueryHeaderFields | Middlewares/Eth/dns.c:427-434 | the header by the fields of section 4.1.1 of RFC 1035: identifier, operation, recursion desired, one question |
| Dns.PutName | Middlewares/Eth/dns.c:440-461 | the labelling loop, stopping at an empty label |
| Dns.LabelsStop | Middlewares/Eth/dns.c:440-461 | a final dot adds no label, and what stands behind two dots in a row is lost |
| Dns.ParseName | Middlewares/Eth/dns.c:152-204 | `parse_name` on any message bytes into a buffer of at least `len` bytes: ends, follows pointers as the `DnsPointers` rows say, returns the compressed length or -1, writes the dotted name and a terminator, and says exactly when that goes over the end of the buffer |
| Dns.TextFits | Middlewares/Eth/dns.c:181-193 | the text never outgrows the room, however the compression pointers go; each round uses at least two of it |
| Dns.OverrunsIff | Middlewares/Eth/dns.c:181-203 | on any message, name and terminator outgrow the room if and only if the text fills it, or for the root with room below two |
| Dns.LabelsOverrunIff | Middlewares/Eth/dns.c:152-204 | for encoded labels: if and only if the dotted name is as long as the room, or for the root with room below two |
| Dns.QueryOverrunsIff | Middlewares/Eth/dns.c:214-220 | the client's own query read into MAXCNAME bytes is always accepted, and its terminator goes over the end if and only if the name has 23 bytes |
| Dns.ReadsLabels | Middlewares/Eth/dns.c:152-204 | encoded labels read back with exactly their encoded length, if and only if there is room |
| Dns.QueryReads | Middlewares/Eth/dns.c:152-204 | at byte 12 of a query `parse_name` finds the queried name and a final dot, if and only if there is room |
| DnsPointers.ReadsSpelling | Middlewares/Eth/dns.c:152-204 | compressed names, with pointers at the end of any chain of label lists, are read as all their labels; the length is that of the spelling where it starts; accepted exactly if there is room |
| DnsPointers.PointerToLabels | Middlewares/Eth/dns.c:168-175 | labels and a pointer to labels read as both lists joined, two bytes longer than the first list |
| DnsPointers.QueriedName | Middlewares/Eth/dns.c:168-175 | C0 0C anywhere behind a query reads as the queried name with length 2, exactly if there is room |
| DnsPointers.PointerToPointer | Middlewares/Eth/dns.c:168-193 | a pointer to a pointer is not followed: the second is taken for a label of at least 192 bytes |

## Left out

- Floating point: numbers are exact reals; rounding in `strtod`, NaN and infinity, and the saturation of `valueint` are not modelled; the text of a number is a parameter.
- Parser.ParseBuffer.ParseNumberItem: reads numbers with an exact `strtod`; its rounding and locale are those of the C library.
- Nested nodes as values: in Compare, Patch and MergePatch the children of an item are a sequence inside a value, so sharing between trees and the stale `prev` of a sorted head are captured only for one list at a time, in LinkedItems and ChildLists; what sorting in place leaves of the operands is captured as values, and the laws about a patched or merged document are for one whose lists are well linked, such as a duplicate.
- Compare.ComparePointedItems: parts shared inside two different items are compared like copies; only the pointers given are looked at.
- Null arguments, allocation failures, item references, constant-string flags and `cJSON_Hooks`.
- Patch.Document.Apply: what TEST leaves of the value inside the patch is not kept; a MOVE or COPY whose `from` has no string is given status 5, where the code would read a null pointer.
- Patch.GeneratePatches: what fresh memory holds is arbitrary, byte by byte, but the same for every buffer.
- PatchLaw.DiffThenPatch: for the case flag off, keys distinct ignoring case and free of `~` and `/`, arrays below 2^32 elements; Limits shows that no other names will do, PatchCase has the case flag on.
- MergeLaw.DiffThenMerge: for the case flag off and names on which the two orders agree; MixedCase shows that no other names will do, under either flag.
- Limits.RemovalWorksIff: about removing the only member of an object alone; the condition for diff then patch as a whole is in Limits.PatchReachesIff.
- MixedCase.CompareObeysFlagIff: for names distinct ignoring case; two names that differ in case only may still compare right, more of them need not.
- RoundTrip.ParsePrinted: for trees without raw or invalid items (RawItems.ParseRaw has raw ones), and number texts that `strtod` takes back.
- Minify.MinifyInPlace: stops where the code would go on reading behind the terminator.
- Lengths and counts are unbounded, except where a 16-bit or 32-bit width is written out.
- `cJSONUtils_FindPointerFromObjectTo`, the create and add conveniences, `cJSON_Duplicate` and `cJSON_Delete`: they would only add easy members.
- Dhcp.DhcpClient.RunOnce: of a message sent, destination, transaction number, flags, `ciaddr` and the option field are modelled, the constant header fields are not; opening the socket, the callbacks, the register writes and the two-second wait behind a DECLINE are left out; the ARP probe is an input.
- Receive.UdpSocket.RecvFrom: UDP only; waiting in blocking mode is the result Waits.
- Transmit.TcpSocket.SendBytes: TCP only; `recv`, `sendto`, `connect` and opening a socket again are left out.
- Raw items without a text, which the printer refuses.
- RawItems.RawPrints: for compact text; in formatted text a raw item keeps the layout it has.
- PointerTokens.DecodesRightIff: for tokens with one escape; without one they decode to themselves.
- PatchAnswers.AddPatchAnswers: with the case flag off and clean paths, like the rows for remove, replace, move and copy.
- DNS answers: only names are modelled, not resource records or the retry loop.
- GPIO, ADC, RTC, LoRa, GPRS and Wi-Fi modules, the UART queues and the MQTT glue.
