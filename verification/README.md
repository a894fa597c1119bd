# Verified models of the Kitten kernel's library code

This project models the algorithmic core of the Kitten lightweight kernel in Dafny and proves what that code
promises. `dafny verify dfyconfig.toml` checks everything. The parts are independent of one another:

- **Red-black trees** (`Rb*`, lib/rbtree.c). Nodes with parent links and colours are rewritten in place by
  rotations, insertion and deletion. Memory is a map from addresses to cells, and a tree with a hole (a zipper)
  says what the loops of the source are looking at.
- **Inflate** (`Huft*`, `Inflate*`, lib/inflate.c). The multi-level Huffman tables, the bit reader, the sliding
  window with its wrap-around, and the decoding of a block, against a definition of the code of RFC 1951
  (sections 3.2.2, 3.2.3 and 3.2.5 to 3.2.7) that knows nothing of tables, up to the end of the input.
- **Radix trees** (`Radix*`, lib/radix-tree.c). Trees with tags against a table from indices to items and two sets
  of tagged indices, for every operation and every run.
- **Mutexes and semaphores** (`Mutex*`, `Semaphore*`, lib/mutex.c and lib/semaphore.c). State machines with any
  number of threads, one atomic instruction or one statement under the wait spinlock per step.
- **Resource trees** (`Resource*`, kernel/resource.c). Address ranges with child, sibling and parent links.
- **Checksums** (`Checksum`, net/inet_chksum.c), **bitmaps** (`Bitmap*`, `BitWords`, lib/bitmap.c and
  lib/find_next_bit.c), **numbers as text** (`Number*`, lib/vsprintf.c), the **GDB packet protocol** (`Kgdb`,
  kernel/kgdb.c), **signals** (`Sig*`, kernel/signal.c) and the **entropy mixer** (`Random*`, kernel/random.c).

Machine integers are modelled by natural numbers, with wrap-around and truncation written out where the source can
reach them. Where an object's fields are updated in place the model is a class; where memory holds linked nodes, it
is a class with a map from addresses to node records.

## Model

| member | source | states |
|---|---|---|
| RbRotate.RbRoot.RotateLeft | lib/rbtree.c:26-47 | The rotation, at any node of any tree, rewrites exactly the links that turn `a x (b y d)` into `(a x b) y d`; all parent links, the root pointer and everything around stay right. |
| RbRotate.RbRoot.RotateRight | lib/rbtree.c:49-70 | The inverse rotation, likewise. |
| RbInsert.InsertColor | lib/rbtree.c:72-135 | From a red-black tree with a red node linked at any leaf place: the result is a red-black tree, all links are right, no node is lost or added, the in-order sequence is the old one with the node in its place, and cells outside it stay the same. |
| RbErase.EraseColor | lib/rbtree.c:138-222 | From a tree that is one black node short on one path: the result is red-black with the same in-order sequence, and cells outside it stay the same. |
| RbErase.Erase | lib/rbtree.c:224-289 | Deleting any node of any red-black tree leaves a red-black tree whose in-order sequence is the old one without that node; no cell outside the tree changes. |
| RbWalk.Insert | include/lwk/rbtree.h:152-159 | Linking a node at a leaf place and recolouring inserts it between its neighbours in order and changes no cell but its own and those of the tree. |
| RbWalk.First | lib/rbtree.c:295-305 | The first node in order, or null for the empty tree. |
| RbWalk.Next | lib/rbtree.c:320-346 | The node that follows in order, or null after the last. |
| HuftLengths.CountLengths | lib/inflate.c:330-338 | How many symbols have a code of each length. |
| HuftSort.Bounds | lib/inflate.c:349-363 | The least and the greatest length in use, and the table size clamped between them. |
| HuftSort.Spare | lib/inflate.c:367-377 | Succeeds exactly when the lengths do not ask for more codes than there are, and then says how many patterns are left over. |
| HuftSort.SortSymbols | lib/inflate.c:390-396 | Every symbol with a code is at the place that its length and its rank among symbols of that length give it. |
| HuftLengths.OversubscribedEnd | lib/inflate.c:367-377 | The comparison of the end code with `2^g` decides whether the Kraft sum is above or equal to one. |
| HuftBuild.TableBits | lib/inflate.c:426-442 | The size of a new table: enough for the code at hand, within the longest code, either full width or filled up by the codes that follow, and the least such size. |
| HuftBuild.Increment | lib/inflate.c:496-499 | The backwards increment is the increment of the reversed code. |
| HuftBuilder.Builder.Run | lib/inflate.c:410-510 | The loop leaves tables in which all patterns up to the last have been entered, with the invariant on open tables, links and entries. |
| HuftCorrect.DecodesIffNoSkip | lib/inflate.c:410-510 | Walking the tables gives every pattern the entry of the code it starts with if and only if no table is skipped. |
| HuftRfc.ReadsIffDecodes | lib/inflate.c:235-277 | Reading a code as RFC 1951 defines it, bit by bit from the input, and decoding a reversed pattern are the same. |
| HuftMain.BuildTables | lib/inflate.c:279-520 | The return code is exactly 2 for no codes or too many, 1 for an incomplete code with a longest length other than 1, else 0; the table size is exact; the tables read every input as RFC 1951 does if and only if no table is skipped; and how many bits a lookup asks for is what the code lengths say. |
| HuftMain.CompleteNoSkip | lib/inflate.c:426-442 | No table is skipped for a complete code over fewer than `2 * 2^m` symbols, nor where two tables of `m` bits reach the longest code: all that deflate can ask for. |
| HuftMain.SkippedTable | lib/inflate.c:426-442 | Lengths 1 and 13 with tables of 6 bits skip a table. |
| HuftNeed.NeedOfCode | lib/inflate.c:574-583 | Looking up a code asks for at most `n` bits if and only if `n` is enough for a whole table or for every code in the same table: a condition on the code lengths alone. |
| HuftNeed.CodesArePrefixFree | lib/inflate.c:235-277 | No input begins with the codes of two symbols. |
| InflateWindow.Window.Put | lib/inflate.c:584-593 | A literal is appended to the output, across the flush at the end of the window. |
| InflateWindow.Window.Copy | lib/inflate.c:616-642 | The copy through the wrapped window, by `memcpy` or byte by byte, is the LZ77 copy on the unwrapped output, for every distance up to the window size and every length. |
| InflateWindow.CopyBackAt | lib/inflate.c:621-642 | After an LZ77 copy every copied byte equals the byte `dist` places before it, also where the copy overlaps itself. |
| InflateBits.BitReader.Need | lib/inflate.c:229-230 | The bits at hand and the input that is left stay the same stream; it fails exactly when the input is too short. |
| InflateBits.StreamBits | lib/inflate.c:229-230 | Bit `r` of byte `q` is bit `8q + r` of the stream: bits are packed lowest first. |
| InflateCodes.Decode | lib/inflate.c:574-583 | Following the tables yields the entry for the next code and takes just its bits, or reports a bad code or the end of the input. |
| InflateCodes.InflateBlock | lib/inflate.c:546-657 | The whole loop is the recursive definition of a block through its tables: output, bits left and return code 0, 1 or 4. |
| InflateRfc.TablesFit | lib/inflate.c:172-186 | Tables that read the deflate alphabets only lead to proper entries. |
| InflateAlphabet.DeflateStandard | lib/inflate.c:172-186 | The four tables are the alphabet of section 3.2.5 of RFC 1951: the numbers of extra bits follow its rule, and each base is the one before plus what the extra bits before can add. |
| InflateAlphabet.DistancesOnce | lib/inflate.c:179-186 | The distances that can be written are those from 1 to 32768, each with one code and one value of its extra bits, in ascending order. |
| InflateAlphabet.LengthsOnce | lib/inflate.c:172-178 | The lengths are those from 3 to 258, each in one way except 258, which has its own code and is also the last of the code before. |
| InflateRfc.BlockIsRfc | lib/inflate.c:546-657 | With tables that read the codes, decoding through the tables ends exactly if decoding the codes of RFC 1951 does, with any distance and with enough input for each lookup, and then with the same output and position. |
| InflateRfc.RfcIsOpen | lib/inflate.c:621-642 | Decoding with any distance differs from RFC 1951 only where a distance reaches before the beginning of the output, and never once a window of output is there. |
| InflateEnd.EndExact | lib/inflate.c:574-583 | A complete block is accepted, where the distances are no obstacle, if and only if the bits of the end-of-block code and those after it are enough to look that code up; the result is the same. |
| InflateEnd.RefusesIff | lib/inflate.c:201-216 | For any two prefix-free codes for which there are tables, some block of RFC 1951 is refused if and only if the lengths are not tight. They are tight if the end-of-block code can be looked up by its own bits, and every distance by its bits and those of that code. |
| InflateEnd.LongestIsTight | lib/inflate.c:201-206 | They are if the end-of-block code is the longest, as the source says. |
| InflateDynamic.DynamicRefuses | lib/inflate.c:930-967 | For every code that can be used for literals, and one that can be used for distances or has no code at all, as RFC 1951 allows: some block of RFC 1951 is not decoded if and only if there is an end-of-block code, and no distance has a code or the lengths are not tight. |
| InflateDynamic.InflateCoded | lib/inflate.c:930-967 | From code lengths to output: success exactly if both codes are usable, the block is complete and each lookup is within the input. What is decoded is a block of RFC 1951, with the alphabet of its section 3.2.5, with its output and position, or one with a distance before the output. For tight lengths every complete block is decoded; for any lengths every block of RFC 1951 with two bytes to spare. |
| InflateShort.ShortInput | lib/inflate.c:574-583 | Length 1 for the end of the block, 2 to 9 for literals, and the input of one zero byte: RFC 1951 ends the block after one bit, the source refuses it. |
| InflateShort.NoDistances | lib/inflate.c:339-345 | A distance code of zero bits, and three zero bytes: RFC 1951 ends the block after one bit, the source refuses it. |
| InflateFixed.InflateFixedBlock | lib/inflate.c:722-780 | A block with the fixed codes is decoded exactly if RFC 1951, with the alphabet of its section 3.2.5, decodes it, with the same output and position, up to the last bit of the input, or if it is complete and a distance reaches before the output. |
| InflateFixedCodes.FixedCodes | lib/inflate.c:741-748 | Every literal, length and the end of the block has the code and the number of bits of the table in section 3.2.6 of RFC 1951. |
| InflateFixedCodes.FixedDistances | lib/inflate.c:756-757 | Every distance code has five bits and is its own number. |
| InflateFixed.FixedIsTight | lib/inflate.c:208-216 | With a first table of seven bits the fixed codes are tight although the end-of-block code is not the longest. |
| InflateEarly.EarlyCopy | lib/inflate.c:621-642 | The bytes 64, 0, 0 as the first fixed block, whatever the window holds: the source copies three bytes from before the output, RFC 1951 does not decode them. |
| RadixIndex.MaxIndexIs | lib/radix-tree.c:783-791 | An index is at most the table's bound for a height exactly when it has no digits above that height. |
| RadixIndex.SlotFor | lib/radix-tree.c:230-230 | Shifting and masking gives the digit of the index for that level. |
| RadixShape.Lookup | lib/radix-tree.c:254-311 | The item stored for the index, or null. |
| RadixTags.TagSet | lib/radix-tree.c:326-355 | The index joins the tagged set, the other tag and all items stay. |
| RadixTags.TagClear | lib/radix-tree.c:371-419 | The index leaves the tagged set, also when it is not there; the item or null is returned. |
| RadixTags.IsTagged | lib/radix-tree.c:777-780 | The root bit tells whether anything has the tag. |
| RadixInsert.Extend | lib/radix-tree.c:152-187 | The tree grows to the least height for the index and means the same. |
| RadixInsert.Insert | lib/radix-tree.c:197-252 | An index that is present is refused and nothing changes; otherwise the item is added and nothing else. |
| RadixDelete.Shrink | lib/radix-tree.c:674-691 | Dropping levels leaves the tree of least height with the same meaning. |
| RadixDelete.Delete | lib/radix-tree.c:702-770 | The index loses its item and both tags; what was there is returned. |
| RadixGang.GangLookup | lib/radix-tree.c:545-567 | The items of the first indices from a given one on, in order, at most as many as asked for, plain or by tag (lines 641-668), including the wrap at the last index. |
| RadixRuns.Run | lib/radix-tree.c:197-770 | Every run of the operations behaves like the table and the two sets. |
| Mutex.StepInv | lib/mutex.c:118-295 | Every step of every thread keeps the invariant on count, spinlock, wait list and sleepers. |
| Mutex.MutualExclusion | lib/mutex.c:118-224 | In every state of every run at most one thread has the mutex. |
| MutexFair.AttemptWins | include/arch-x86_64/mutex.h:21-105 | In every state of every run, whoever decrements, exchanges (lib/mutex.c:132, 146, 287) or compares and exchanges the count to get the mutex has it afterwards if and only if nobody had it. |
| MutexFair.OwnerChanges | lib/mutex.c:118-295 | Nobody gets the mutex in any other way, nobody loses it by what others do, and whoever lets go leaves it free. |
| MutexFair.Uncontended | include/arch-x86_64/mutex.h:21-84 | In every state of every run in which no thread waits for the mutex or is just leaving the wait list, the count is 1 or 0 as the mutex is free or not, and locking a free mutex and unlocking it take one instruction each. |
| MutexFair.WakesLongest | lib/mutex.c:209-219 | The thread that is woken is the one that has been waiting since the earliest state of the run, and no other is woken. |
| Mutex.NoLostWakeup | lib/mutex.c:118-224 | Whenever somebody waits and the spinlock is free, the next unlock will look at the wait list or a waiter can run. |
| Mutex.NoDeadlock | lib/mutex.c:118-295 | If every thread in an operation is stuck, some thread holds the mutex. |
| Semaphore.StepInv | lib/semaphore.c:52-180 | Every step keeps the invariant that ties count, sleepers and pending operations to permits handed out. |
| Semaphore.Accounting | lib/semaphore.c:57-180 | While the spinlock is free, count plus sleepers plus operations under way equals permits plus ups minus acquisitions. |
| Semaphore.NoOvertaking | lib/semaphore.c:57-93 | Never more acquisitions than permits and ups. |
| SemaphoreFair.TakesIff | include/arch-x86_64/semaphore.h:101-156 | In every state of every run, a down or a trylock takes a permit at once if and only if there is one that nobody has spoken for. |
| SemaphoreFair.WaiterTakesIff | lib/semaphore.c:69-88 | A waiter that looks again takes a permit if and only if one is left beside those of threads on their way. |
| SemaphoreFair.TakenOnly | lib/semaphore.c:57-180 | No permit is taken in any other way. |
| SemaphoreFair.GivesOne | include/arch-x86_64/semaphore.h:162-173 | An up gives one more permit, and goes on to wake somebody if and only if it is spoken for. |
| SemaphoreFair.WakesLongest | kernel/waitq.c:129-149 | The thread that is woken is the one that has waited longest, and no other is woken. |
| Semaphore.NoLostWakeup | lib/semaphore.c:52-93 | Whenever somebody waits and the spinlock is free, the next up will take the slow path, one is on its way to wake somebody, or a waiter runs. |
| Semaphore.NoDeadlock | lib/semaphore.c:52-180 | If every thread in an operation is stuck, all permits are taken. |
| Resource.Request | kernel/resource.c:33-59 | Links the node exactly when its range is not empty, lies inside the root and meets no child; otherwise names the first child in the way, or the root, and changes nothing. |
| ResourceRegion.Release | kernel/resource.c:61-80 | A linked node without children is always found under its parent and taken out; -EINVAL is never returned. |
| ResourceAlloc.Find | kernel/resource.c:115-156 | Takes the first gap with room; what it finds suits the limits if and only if nothing wraps at that gap, and that is so if and only if some range suits; if a range suits, one is found. |
| ResourceAlloc.NoWrapExact | kernel/resource.c:134-154 | Where nothing can wrap, there is room exactly if some range suits. |
| ResourceAlloc.SearchWraps | kernel/resource.c:143-148 | On a tree of one node over all addresses, the search for two addresses from `2^64 - 6` on, aligned to 4096, returns address 0 although nothing suits. |
| ResourceAlloc.Allocate | kernel/resource.c:161-177 | Succeeds exactly if room is found and is free; if a range suits, the node is linked at one. |
| ResourceInsert.InsertResource | kernel/resource.c:192-247 | Succeeds exactly if the range is not empty, lies inside the parent, and no node below the parent overlaps it partially; then the node is a leaf or has taken over exactly the children it covers. |
| ResourceInsert.Adjust | kernel/resource.c:254-288 | Succeeds exactly if the new range stays inside the parent, between the neighbours and around the children; for a size of at least one within the address space, that is exactly if the tree with the node at the addresses from `start` up to but not including `start + size` is well formed, and the node is then at these. The tree stays well formed exactly if the change is refused or the range is not empty. |
| ResourceInsert.AdjustExact | kernel/resource.c:257-283 | A non-empty range is granted if and only if the tree with that range in place is well formed. |
| ResourceInsert.AdjustToNothing | kernel/resource.c:257-283 | Under `[0,10]`, the node `[2,3]` is adjusted to start 5 and size 0: granted, with the range `[5,4]`, and the tree is not well formed. |
| ResourceRegion.RequestRegion | kernel/resource.c:315-349 | A region is made exactly if some way down through nodes that are not busy ends where it fits; it has the addresses from `start` up to but not including `start + size`. Otherwise the tree is as before. |
| ResourceRegion.Neighbours | kernel/resource.c:315-349 | Under a node without children, two regions of any sizes can be claimed side by side, up to the last address of the node. |
| ResourceRegion.ReleaseRegion | kernel/resource.c:388-424 | Frees the one busy node with exactly the addresses from `start` up to but not including `start + size`, or changes nothing if there is none; all lists stay right, the parent links that go wrong are those of the freed node's children, and the tree is well formed afterwards if and only if it had none. |
| ResourceRegion.FreedParent | kernel/resource.c:404-414 | The tree `[0,10]` over busy `[2,8]` over `[4,5]` is well formed, has the region `[2,8]`, and is not well formed once that is released. |
| ResourceRegion.OneRegion | kernel/resource.c:399-417 | There is at most one region for a range, and one way to it. |
| ResourceRegion.RequestThenRelease | kernel/resource.c:315-424 | Requesting a region and releasing it restores the tree. |
| ResourceRuns.Step | kernel/resource.c:33-424 | Each call has its effect, and the tree stays well formed unless the call releases a region with children or adjusts a range to an empty one. |
| ResourceRuns.EffectSound | kernel/resource.c:33-424 | Between any two states related by the effect of a call, the second is well formed if the first is, except if the call does harm, and then it is not. |
| ResourceRuns.TraceSound | kernel/resource.c:33-424 | In every sequence of states related by effects, from the empty tree on, all states up to the first call that does harm are well formed, and the one after it is not. |
| ResourceRuns.Run | kernel/resource.c:33-424 | Every run of request, insert, adjust, allocate, release and region calls goes through states each of which is the effect of a call on the one before; it ends early only with a call that does harm, and every state before such a call is well formed. |
| Checksum.Version1 | net/inet_chksum.c:81-116 | The byte-pair sum with two folds is the Internet checksum, for all lengths of the parameter's type. |
| Checksum.Version2 | net/inet_chksum.c:135-175 | The word sum from any address is the Internet checksum, up to the length the source states. |
| Checksum.Version3 | net/inet_chksum.c:191-257 | The unrolled sum with deferred carries is the Internet checksum from any address and for any length. |
| Checksum.ChainChecksum | net/inet_chksum.c:503-525 | Over a chain of buffers at any addresses and of any lengths: the inverted checksum of all bytes together. |
| Checksum.ReceiverCheck | net/inet_chksum.c:503-525 | Data with its inverted checksum stored in it, low byte first, sums to all ones. |
| BitWords.FindNextBit | lib/find_next_bit.c:21-58 | The least set bit from the offset on, or the size. |
| BitmapShift.ShiftLeft | lib/bitmap.c:154-179 | Bit by bit, the shifted bitmap, truncated to its size. |
| BitmapRemap.PosToOrd | lib/bitmap.c:565-581 | The number of set bits before a set bit, else -1. |
| BitmapRemap.OrdToPos | lib/bitmap.c:601-617 | The set bit with that number, or 0. |
| BitmapRemap.OrdPosInverse | lib/bitmap.c:565-617 | The two are inverse on set bits and on numbers below the weight. |
| BitmapRemap.RankCounts | lib/bitmap.c:565-581 | The number of a bit is the size of the set of set bits below it. |
| BitmapRemap.Remap | lib/bitmap.c:651-671 | A bit is set in the destination if and only if some bit of the source lands on it: a bit that the old map does not have, or for an empty new map, on itself; the `k`th bit of the old map on the bit of the new map whose number is `k` modulo its weight. Onto itself nothing changes. |
| BitmapRemap.MapSetIs | lib/bitmap.c:651-671 | The image of any set, told by sets and their sizes alone. |
| BitmapRemap.RemapRoundTrip | lib/bitmap.c:651-671 | Between bitmaps of equal weight, remapping there and back restores every set of mapped bits. |
| BitmapText.PrintBitmap | lib/bitmap.c:290-315 | The hexadecimal groups of the bitmap's value. |
| BitmapText.HexIsNumber | lib/bitmap.c:309-310 | A group is what `%0*lx` prints. |
| BitmapText.ParseBitmap | lib/bitmap.c:345-412 | The words hold the value that the text denotes, or the exact error. |
| BitmapHex.ParsePrint | lib/bitmap.c:290-412 | Parsing the text of any value into any number of bits gives it back, if and only if it fits, and else -EOVERFLOW. |
| BitmapText.PrintParse | lib/bitmap.c:290-412 | Printing any bitmap and parsing the text into one of any size restores it if and only if every set bit is below that size, and else fails with -EOVERFLOW. |
| BitmapList.PrintList | lib/bitmap.c:476-497 | The text lists the maximal runs of set bits, which together are the bitmap. |
| BitmapList.ListExample | lib/bitmap.c:448-457 | Bits 0 to 3, 16, 17 and 20 are `0-3,16-17,20`. |
| BitmapList.ParseList | lib/bitmap.c:517-544 | The bits that the list denotes, or the exact error. |
| BitmapList.ParsePrinted | lib/bitmap.c:517-544 | Parsing the text of any ranges gives their union if and only if each fits; otherwise -ERANGE, and -EINVAL for the empty list. |
| BitmapList.PrintParseList | lib/bitmap.c:476-544 | Printing any bitmap as a list and parsing it into one of any size restores it if and only if it has a bit and every bit is below that size; else -EINVAL for the empty bitmap and -ERANGE. |
| NumberDigits.PutDecTrunc | lib/vsprintf.c:314-348 | Multiplications and shifts give the decimal digits of any number below 100000. |
| NumberDigits.PutDecFull | lib/vsprintf.c:350-388 | All five digits, with zeros. |
| NumberDigits.PutDec | lib/vsprintf.c:390-399 | The decimal digits of any number. |
| NumberText.Number | lib/vsprintf.c:441-556 | The text that the flags, width, precision and base ask for, of which only what fits is stored, and its full length. |
| NumberText.FieldWidth | lib/vsprintf.c:441-556 | The text is as long as the field is wide, or as sign, prefix, precision and digits need. |
| NumberText.Fields | lib/vsprintf.c:505-551 | Zeros fill the field behind the sign and the prefix, spaces before them or, to the left, behind the digits. |
| NumberParse.StrToUl | lib/vsprintf.c:64-87 | The value of all digits of the longest run of them, modulo `2^64`, and where it ends. |
| NumberParse.NumberRoundTrip | lib/vsprintf.c:64-87 | Parsing a printed number gives it back if and only if it was printed without leading blanks and sign, or is zero. |
| NumberParse.SignedRoundTrip | lib/vsprintf.c:96-101 | The signed parse gives it back if and only if nothing but a minus sign comes first, or it is zero. |
| NumberParse.PlusFive | lib/vsprintf.c:64-87 | The number 5 printed with a plus sign reads as 0. |
| Kgdb.MemToHex | kernel/kgdb.c:316-339 | The conversion in the shared buffer writes the hexadecimal text of all bytes. |
| Kgdb.HexToMem | kernel/kgdb.c:371-390 | The conversion from the last digit down in the same buffer yields the bytes that the text denotes. |
| Kgdb.PutPacket | kernel/kgdb.c:253-302 | The frames sent and the replies used, until an acknowledgement. |
| Kgdb.SendUntil | kernel/kgdb.c:253-302 | For any replies, with or without breaks, of which the last acknowledges the frame or begins a new packet: the frame is sent once per reply, and in the second case a minus sign at the end. |
| Kgdb.SendOn | kernel/kgdb.c:253-302 | As long as no reply does either, the frame is sent again after each. |
| Kgdb.HexDigits | kernel/kgdb.c:185-196 | The digits are written in lower case and read in either; nothing else is a digit. |
| Kgdb.GetPacket | kernel/kgdb.c:199-247 | The packet received and the replies given, as a function of what arrives. |
| Kgdb.Conversation | kernel/kgdb.c:199-302 | After any number of damaged frames, a good one is received, and the replies make the sender send exactly that often. |
| Kgdb.AcceptedIs | kernel/kgdb.c:206-246 | Whatever is accepted was framed with its own checksum, or fills the buffer with sum 255. |
| Kgdb.Overlong | kernel/kgdb.c:223-246 | Anywhere on the line, data that fills the buffer without an end is accepted exactly if its sum is 255, and is not acknowledged; otherwise reading goes on after it. |
| Kgdb.OverlongInstance | kernel/kgdb.c:223-246 | The byte 255 followed by zeros is accepted as a packet. |
| Kgdb.Transfer | kernel/kgdb.c:199-390 | Memory sent as hexadecimal packets arrives unchanged, however often the packet is damaged on its way; hearing the replies, the sender sends it exactly that often. |
| SigSet.GetNextIs | lib/sigset.c:193-227 | The least signal that is pending and not blocked, or 0. |
| SigPending.Dequeue | kernel/signal.c:281-319 | Takes that signal: its oldest details if there are any, and the bit stays exactly if there are more. |
| SigPending.Remove | kernel/signal.c:31-50 | Discards exactly the signals of the set. |
| SignalSpace.Aspace.SigSend | kernel/signal.c:191-276 | The exact status and the exact new state: a refused signal changes nothing, any other is queued for its target, and only flags change besides. |
| SignalEffects.SendsIff | kernel/signal.c:191-276 | The ways in which sending fails, each without effect; otherwise the signal is pending for its target, or for all. |
| SignalRuns.PendingForAll | kernel/signal.c:212-214 | A standard signal that is pending for all is not sent again, to nobody, and this is no error. |
| SignalRuns.QueuedForOne | kernel/signal.c:212-247 | Any other that is sent to one task is queued behind those that are queued for it already. |
| SignalRuns.TwiceToOne | kernel/signal.c:212-247 | Signal 10 sent twice to task 1 of a new address space is queued twice. |
| SignalRuns.TraceSingle | kernel/signal.c:31-379 | In every state of every run, at most one instance of a standard signal is queued for all. |
| SignalRuns.FirstSignal | kernel/signal.c:191-379 | In a new address space, a signal sent to all ends the first task that looks, unless it is SIGCHLD, SIGCONT, SIGURG or SIGWINCH, which are dropped. |
| SignalSpace.Aspace.SigDequeue | kernel/signal.c:323-379 | The loop that drops one signal after another, stated as a whole: the task gets the least signal that is pending, not blocked and not ignored, of its own or else of all; of the queues looked at, the unblocked signals below it are emptied, and every other signal, mask, flag and action is as before. |
| SignalEffects.DeliversIff | kernel/signal.c:323-379 | A task is given a signal exactly if one is pending for it that it neither blocks nor ignores, and then the lowest of its own, or else of those for all, with the action in force; it exits exactly for a default action; and only a one-shot action that was called changes, to the default. |
| SignalEffects.FlagIff | kernel/signal.c:370-373 | The pending flag is set afterwards if and only if it was, and the task exits or some signal is still pending. |
| SignalEffects.BlockedStays | kernel/signal.c:287-289 | A signal that the task blocks stays pending wherever it is, with its details or without any. |
| SignalEffects.DroppedIgnored | kernel/signal.c:342-354 | What is dropped is ignored and not blocked. |
| SignalEffects.RealTimeDetails | kernel/signal.c:291-308 | A real-time signal comes with the oldest details that were queued for it, and these leave the queue. |
| SignalSpace.Aspace.SigAction | kernel/signal.c:112-166 | The exact status and the exact new state: the new action, and if it ignores the signal, that signal is pending nowhere; all other signals, masks and flags are as before. |
| SignalEffects.WaitsIff | kernel/signal.c:112-166 | A valid change of action is put off if and only if a signal is pending, for the task or for all, that the task does not block. |
| SignalSpace.Aspace.SigProcMask | kernel/signal.c:54-89 | The new mask, signal by signal, and nothing else. |
| SignalEffects.MaskSets | kernel/signal.c:54-89 | Blocking adds the given set to the mask, unblocking takes it away, setting replaces the mask; anything else changes nothing. |
| SignalRuns.EffectBalanced | kernel/signal.c:31-379 | Between any two states related by the effect of a call: if what was sent to a queue has gone or is in it, in order, this stays so with what the call queued, delivered, dropped or discarded. |
| SignalRuns.TraceBalanced | kernel/signal.c:31-379 | So it is after every call of every sequence of calls, for every queue and every signal. |
| SignalRuns.Run | kernel/signal.c:31-379 | Every run of calls leads through states and events each of which is the effect of its call on the state before; after each call, what the events took from a queue is what the calls sent to it first, in order and once, the rest is queued, a real-time signal is pending exactly if something is left, a standard signal is queued for all at most once, and whoever has one pending is flagged. |
| Random.UnmixMix | kernel/random.c:448-471 | Mixing in any bytes can be undone. |
| Random.MixUnmix | kernel/random.c:448-471 | Every pool comes from one. |
| Random.MixBijective | kernel/random.c:424-481 | For any bytes, mixing them in is a bijection on pools. |
| RandomCrc.TwistIsCrc | kernel/random.c:427-463 | The twist through the table is three steps of a shift register with the CRC-32 polynomial. |
| Random.InputFeedback | kernel/random.c:267-268 | The words that are summed up for the input pool are those of the polynomial that the source gives. |
| Random.OutputFeedback | kernel/random.c:269-270 | Those for the output pools likewise. |
| RandomWords.InputBits | kernel/random.c:450-450 | Bit `i` of a rotated input is the bit of the byte, with its sign extended, that many places before it, around the word. |
| Random.EntropyStore.MixPoolBytes | kernel/random.c:424-481 | The loop on the pool in place computes that mixing; each byte moves the position one word back, around the pool, and the rotation by 7 bits, or by 14 at the first word; the words extracted are the last ones mixed. |

## Findings

Properties that the code does not have, each with the condition under which it does:

- **The end of the input** (lib/inflate.c:574-583). A lookup asks for as many bits as its table has, also when the code
  is shorter, so a valid block that ends with the input may be refused. `InflateEnd.RefusesIff` states for which code
  lengths this happens: if and only if they are not tight; `InflateDynamic.InflateCoded` says which blocks are accepted,
  and `InflateShort.ShortInput` is an instance. The condition of lib/inflate.c:201-206, that the end-of-block code is
  the longest, is enough (`LongestIsTight`) but not needed; fixed blocks do without it (`InflateFixed.FixedIsTight`).
- **No distance codes** (lib/inflate.c:339-345). A block of literals alone may have a distance code of zero bits
  (section 3.2.7 of RFC 1951, and lib/inflate.c:72-77), but no table is built from it and the block is refused.
  `InflateDynamic.DynamicRefuses` states that this and lengths that are not tight are the only ways in which the codes
  make the source refuse a valid block; `InflateShort.NoDistances` is an instance.
- **Distances before the output** (lib/inflate.c:621-642). RFC 1951 (section 3.2.3) and lib/inflate.c:64-65 rule them
  out, but nothing looks for them, and what the window held before is copied. `InflateDynamic.InflateCoded` and
  `InflateFixed.InflateFixedBlock` state that a block that RFC 1951 does not decode is accepted if and only if it has
  such a distance, is complete, and its lookups are within the input; `InflateEarly.EarlyCopy` is an instance, and
  `InflateRfc.RfcIsOpen` shows that it cannot happen after a window of output.
- **Skipped tables** (lib/inflate.c:427-442). When a code is longer than two levels of tables allow at its place, the
  new table gets more bits than are ever looked up, and some inputs read entries that were never set.
  `HuftMain.BuildTables` states that the tables are right if and only if `NoTableSkipped`, a condition on the code
  lengths; `SkippedTable` is an instance and `CompleteNoSkip` shows that deflate stays clear of it.
- **Freeing a region with children** (kernel/resource.c:404-414). A busy region that has got children is freed without
  a look at them, and they keep a parent pointer to freed memory. `ResourceRegion.ReleaseRegion` states that all links
  are right afterwards if and only if the freed node had no child; `FreedParent` is an instance.
- **Adjusting to an empty range** (kernel/resource.c:257-283). `start + size - 1` may wrap, or `size` be 0, and a range
  that ends before it starts is put into the tree. `ResourceInsert.Adjust` states that the tree stays well formed if
  and only if the range is refused or not empty; `AdjustToNothing` is an instance.
- **Wrapping in the search** (kernel/resource.c:131, 143 and 152). Aligning near the end of the address space, or going
  past a child that ends there, wraps to 0, and the search may settle on a range outside its limits.
  `ResourceAlloc.Find` states that what it finds suits if and only if neither wraps at the gap taken; `SearchWraps` is
  an instance. The statement is for at least two addresses: a single one is never taken from a gap of size one
  (line 146 compares strictly), and after wrapping one may suit by accident.
- **An overlong packet** (kernel/kgdb.c:223-246). Data that fills the buffer without a `#` is compared with the initial
  checksum, 255, and accepted without acknowledgement if and only if it sums to that: `Kgdb.Overlong`, with
  `OverlongInstance`.
- **Standard signals for one task** (kernel/signal.c:212-214). Whether a standard signal is queued already is looked up
  only among those pending for all. So one that is sent to a task again is queued again (`SignalRuns.QueuedForOne`, with
  the instance `TwiceToOne`), and one that is pending for all is not sent to the task at all (`PendingForAll`). For all
  tasks it is queued at most once (`TraceSingle`).
- **The empty list** (lib/bitmap.c:522-524). The text printed for an empty bitmap is refused by the parser:
  `BitmapList.PrintParseList`.
- **Printed numbers** (lib/vsprintf.c:64-101). Leading blanks and a plus sign, which the printer produces, are not read
  by the parsers: `NumberParse.NumberRoundTrip` and `NumberParse.SignedRoundTrip` say exactly when they read back;
  `PlusFive` is an instance.

## Left out

- Linked nodes are records in a map from addresses, not heap objects: aliasing is by address, and allocation hands out
  addresses that are not in use.
- Running out of memory: node allocation in radix trees, resource trees and table building always succeeds; of signals,
  the failure to queue details is modelled.
- The rest of lib/inflate.c: gzip headers, stored blocks, the reading of the code lengths of a dynamic block, and the
  CRC.
- Reverse iteration and node replacement in red-black trees: easy variations of what is there.
- Signals that interrupt a lock or a semaphore: that code is compiled out in the source, and the interruptible variants
  are then the plain ones.
- Resource names, flags other than busy, alignments that are not a power of two, and the alignment callback.
- Bitmap parsing from user memory, truncated bitmap text, and the bitmap operations that only combine words.
- The format interpreter of lib/vsprintf.c around the printing of numbers.
- Faults while the debugger copies memory, and the rest of the debugger.
- The wake-up of sleeping tasks when a signal is sent, and default actions other than ignoring and exiting.
- Entropy accounting and the extraction of random bytes.
- RadixTags.TagSet: for an index that is present only, since the source declares anything else a bug.
- Checksum.Version2: for lengths up to 0x20000, as the source says of itself.
- BitmapList.PrintParseList: for bitmaps of fewer than 2^31 bits, the range of the source's `int`.
