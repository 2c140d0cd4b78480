# Verification of the 56VFS core

A Dafny model of the parts of 56VFS, a file-distribution server, that carry real invariants, with
proofs about them. Code that changes state step by step is modelled by classes and methods with
loops, proved against functions; the properties are proved about those functions and over whole
runs. `dafny verify dfyconfig.toml` checks everything.

| file | what it models |
|---|---|
| `ShmBuffer.dfy` | the chained hash table in one flat array (`ShmTable`): heap shape, tombstones, rebuilding, whole runs against a plain map |
| `NmShm.dfy` | the double-buffered metrics table on two such tables: conservation of increments |
| `Md5Spec.dfy`, `Md5Transform.dfy`, `Md5.dfy` | RFC 1321 and RFC 2104 as functions; the unrolled transform; the incremental digest and the keyed digests |
| `IntrusiveList.dfy`, `ListPair.dfy` | the intrusive rings, and two of them over one pool of nodes |
| `EngineSpec.dfy`, `Engine.dfy` | what the connection engine does to its pending lists, as functions; the engine on linked lists, refining them |
| `MyBuff.dfy`, `SendPath.dfy`, `RecvPath.dfy` | the byte queue with its file slice; sending and receiving over an unreliable socket |
| `ProVoss.dfy`, `Voss.dfy` | record framing and the receiver that drains fragmented records |
| `SplitMerge.dfy` | cutting a file into ranges and merging the parts |
| `StrExplode.dfy`, `Base64.dfy` | the in-place tokenizer and the encoder, each against a specification |
| `Timers.dfy` | the timer pool (`TimerPool`) and what it means for one timer (`TimerSpec`) |
| `TimeStamp.dfy`, `Moni.dfy` | the time stamp files and the traffic controller |

## How to read the model

- I/O, locks, clocks and random numbers are arguments or nondeterministic choices. A Boolean
  parameter `healthy` says that no I/O call fails; without it any call may fail at any time.
- The hash table's representation is described by three ghost fields: the chain of each bucket, the
  place of each slot on a chain, and the slot of each key. `Contents()` is the plain map.
- A key set *fits* a table of `h` buckets and `d` overflow slots when it has at most `d` keys more
  than it has occupied buckets. `Add` needs this only for tables of fewer than five records.
- Finite oracles stand for what `send`, `sendfile64` and `recv` answer; a call that is interrupted
  for ever is not modelled.
- `Voss.Peer.CheckReq` and `Voss.Peer.SvcRecv` are `check_req` (lines 143-204) and `svc_recv` (lines
  206-234) of network/voss/vfs_voss.c: requests are taken while their header, or for control
  records all of them, is buffered, and at the end of the stream the output is complete exactly when
  the last write was not short. `SplitMerge.TaskTable` is the table of network/vfs_task.c (lines
  178-323), as one list with the newest report first: `Add`, `Check`, `SetExpire` and `Get`.
- In the voss receiver `takes(i)(k)` is how many bytes the k-th write of the i-th arrival takes at most;
  `Drain` and `AfterArrivals` are what a receiver does that is not closed.
- The engine's environment `Env` holds what the engine cannot know: the throttle's random numbers, how
  transfers end, what the plug-in answers, and what its callbacks close and open.
- `Local` is `get_localdir` (network/vfs_localfile.c, lines 54-61), which drops the directories of a name
  and puts the rest under the host.
- `Progress` in `SplitMerge` is the run specification of a file whose parts finish: how many reports
  of each part wait, which part files are on disk, and what has been merged.

## What the proofs found in the code

- A hash table with fewer than five records never grows (`GrowsIff`); adding a key that does not
  fit does not end (`NeverFits`, `FullSmallTable`). From five records on every `Add` ends.
- The size that the hash table reports counts erased entries until the next rebuild or clear.
- `MD5Final` clears eight bytes of the context, not all of it; half of the digest stays behind.
- Data queued while a file slice is pending overtakes the slice (`QueueingKeepsOrder`,
  `DataOvertakes`).
- A submitted record with an empty body leaves the receiver in the middle of a record when nothing
  is buffered behind its header; the next bytes to arrive end that state (`ProcessDataReq`,
  `EmptyBody`).
- A short write on the last arrival leaves payload in the buffer, and it stays there until something
  else arrives; short writes of earlier arrivals do no harm (`ShortIsExact`, `ShortWrite`).
- The completion check looks for any unexpired report of a part, the merge uses the newest report:
  an expired report in front of an unexpired one loses the part (`MergeIsExact`). Reports are found by
  file name, part files and check files by host and base name, so a file of the same name from a
  second host brings this about (`ShadowedReport`).
- A part that is downloaded twice has two reports but one file, and a merge takes one report and the
  file. The report left over lets a later merge start, which then truncates the output; a merge is
  right exactly when every part file is on disk (`FinishIsExact`, `RepeatedReports`). Re-requests by
  check_lack_task alone do not lead to this, because the part that finishes first is not asked for
  again (`OneMerge`); it takes a file that is submitted again.

## Model

| member | source | states |
|---|---|---|
| ShmTable.ShmBuffer.Find | 3rdlib/TShmBuffer.h:203-228 | The walk ends and finds a key exactly when the table's plain map has it, and then the slot's value is the map's value; tombstones on the way do not stop it. |
| ShmTable.ShmBuffer.Add | 3rdlib/TShmBuffer.h:153-201 | For a key that Find did not find: the map gains exactly that key, whatever collisions and rebuilding happen; a tombstone on the key's chain is used again before an overflow slot is taken, and the table is rebuilt exactly when there is neither; the call ends from every state with at least five records, and in a smaller table whenever the keys fit; without a rebuild the array stays in place. |
| ShmTable.ShmBuffer.Realloc | 3rdlib/TShmBuffer.h:327-376 | Rebuilding keeps the contents exactly, drops every tombstone, leaves a geometry that comes from the old one by growing one or more times, and the recursion Add - Realloc - Add ends even when the rebuilding overflows again. |
| ShmTable.ShmBuffer.Erase | 3rdlib/TShmBuffer.h:230-251 | Exactly the erased key disappears from the map, so no other key is hidden by a tombstone; the answer says whether the key was there. |
| ShmTable.ShmBuffer.Clear | 3rdlib/TShmBuffer.h:253-258 | The map becomes empty and the heap shape is that of a new table of the same geometry. |
| ShmTable.ShmBuffer.constructor | 3rdlib/TShmBuffer.h:126-151 | A freshly allocated, zeroed table is well formed and stands for the empty map. |
| ShmTable.ShmBuffer.Alloc | 3rdlib/TShmBuffer.h:126-151 | Allocating on an existing object, as rebuilding does, gives the requested geometry and the empty map, without tombstones. |
| ShmTable.ShmBuffer.Store | 3rdlib/TNmShm.cpp:105-122 | Writing through the pointer that Find returned changes the value of that key in the map and nothing else. |
| ShmTable.ShmBuffer.Size | 3rdlib/TShmBuffer.h:391-395 | The reported size is the number of keys plus the number of erasures since the table was last rebuilt or cleared: Erase does not count down. |
| ShmTable.ShmBuffer.Begin | 3rdlib/TShmBuffer.h:276-280 | A scan that begins has the whole map before it. |
| ShmTable.ShmBuffer.Next | 3rdlib/TShmBuffer.h:282-302 | Each call reports one entry of what the scan has not met yet and removes exactly that entry from it; it fails exactly when nothing is left, so a full scan reports every entry once. |
| ShmTable.GrowsIff | 3rdlib/TShmBuffer.h:333-337 | The 12/10 growth changes the geometry exactly when the table has at least five records; below that Realloc is a fixed point. |
| ShmTable.GrowsByAFifth | 3rdlib/TShmBuffer.h:333-337 | Buckets and records each become six fifths of what they were, rounded down. |
| ShmTable.SameBucket | 3rdlib/TShmBuffer.h:153-160 | Two keys share a bucket exactly if their distance is a multiple of the number of buckets. |
| ShmTable.NeverFits | 3rdlib/TShmBuffer.h:176-187 | Partner of Add's condition: in a table of fewer than five records, keys that do not fit are not the key set of any well-formed state, so Add has no state to return in. |
| ShmTable.TwoKeysOneBucket | 3rdlib/TShmBuffer.h:176-187 | The failing input: keys 1 and 5 do not fit four buckets without overflow slots. |
| ShmTable.FullSmallTable | 3rdlib/TShmBuffer.h:153-201 | A newly allocated table of four records that has taken key 1 is a state from which adding key 5 does not end. |
| ShmTable.Capacity | 3rdlib/TShmBuffer.h:160-193 | No well-formed table holds more keys than it has used overflow slots and occupied buckets. |
| ShmTable.TightIsFull | 3rdlib/TShmBuffer.h:160-193 | A table without tombstones holds exactly as many keys as used overflow slots plus occupied buckets. |
| ShmTable.RoomWhenFits | 3rdlib/TShmBuffer.h:157-199 | In a tombstone-free table with a full overflow region, a key that still fits finds the head of its bucket empty. |
| ShmTable.OverflowIsFar | 3rdlib/TShmBuffer.h:174-182 | A tombstone-free table that overflows still has fewer than 2^31 buckets and overflow slots, which bounds the number of rebuilds. |
| ShmTable.GrowthApproaches | 3rdlib/TShmBuffer.h:333-337 | Every growth step of a table with at least five records strictly lowers its distance from a geometry that cannot overflow. |
| ShmTable.ExtendKeepsChains | 3rdlib/TShmBuffer.h:185-187 | Linking a new overflow slot behind the end of a chain keeps all chains acyclic, disjoint and covering the used slots. |
| ShmTable.ExtendKeepsKeys | 3rdlib/TShmBuffer.h:185-198 | The same step keeps every key in the chain of its bucket, unused slots zero, and adds one entry to the map. |
| ShmTable.FillKeepsKeys | 3rdlib/TShmBuffer.h:164-198 | Reusing an empty head or a tombstone of the key's own chain keeps every other key where it is found. |
| ShmTable.EraseKeepsKeys | 3rdlib/TShmBuffer.h:238-242 | A tombstone keeps its link, so all other keys stay reachable and mapped as before. |
| ShmTable.NotOnChain | 3rdlib/TShmBuffer.h:203-228 | A key that is on no slot of its bucket's chain is nowhere in the table. |
| ShmTable.Replay | 3rdlib/TShmBuffer.h:153-258 | Whole runs: any sequence of put (Find, then Add or overwrite), get, erase and clear on a new table answers every get as the plain map does. |
| NmShm.NmShm.Attach | 3rdlib/TNmShm.cpp:20-33 | Attaching to tables that already hold values starts with the balance that counts these values as increments. |
| NmShm.NmShm.IncShm | 3rdlib/TNmShm.cpp:174-190 | The held value becomes the C int congruent to the sum, and the sum itself whenever that is a C int; no other key and nothing of the buffer being read changes; reported and held values and the words taken off by wrapping stay equal to the increments of each key. |
| NmShm.NmShm.SetShm | 3rdlib/TNmShm.cpp:105-122 | A set keeps the same balance when counted as the increment that reaches the new value. |
| NmShm.NmShm.BeginReadShm | 3rdlib/TNmShm.cpp:74-81 | The complement of the index always changes its parity: the reader gets the buffer that was written so far and writers get the other one. |
| NmShm.NmShm.ReadShm | 3rdlib/TNmShm.cpp:90-103 | Each report moves one held value to the reader, once, and the end is reported exactly when nothing is left. |
| NmShm.NmShm.EndReadShm | 3rdlib/TNmShm.cpp:83-88 | Clearing the buffer that was read to its end loses no increment. |
| NmShm.Run | 3rdlib/TNmShm.cpp:74-103 | Conservation over whole runs: from whatever the tables hold and for every interleaving of increments with the calls of a reader, the reader's reports, each a C int, add up, key by key, to what was held at the start and all increments: modulo 2^32 always, and exactly for every key whose partial sums stay in the range of a C int; in the end nothing is held. |
| Md5Transform.F1IsF | lib/md5.c:159-162 | The rewritten selection function equals F of section 3.4 of RFC 1321 on all words. |
| Md5Transform.F2IsG | lib/md5.c:159-162 | The rewritten second function equals G of section 3.4 of RFC 1321. |
| Md5Transform.MacroStepIs | lib/md5.c:165-166 | The step macro, which adds in another order, computes the RFC's a = b + ((a + f + x + t) <<< s). |
| Md5Transform.Step1 | lib/md5.c:182-197 | One unrolled step of round 1, with its rotated registers, is the table-driven step of that index. |
| Md5Transform.Step2 | lib/md5.c:199-214 | The same for the steps of round 2. |
| Md5Transform.Step3 | lib/md5.c:216-231 | The same for the steps of round 3. |
| Md5Transform.Step4 | lib/md5.c:233-248 | The same for the steps of round 4. |
| Md5Transform.Round1 | lib/md5.c:182-197 | The 16 unrolled steps of round 1 equal steps 0 to 15 of the table-driven loop. |
| Md5Transform.Round2 | lib/md5.c:199-214 | The 16 unrolled steps of round 2 equal steps 16 to 31. |
| Md5Transform.Round3 | lib/md5.c:216-231 | The 16 unrolled steps of round 3 equal steps 32 to 47. |
| Md5Transform.Round4 | lib/md5.c:233-248 | The 16 unrolled steps of round 4 equal steps 48 to 63. |
| Md5Transform.Transform | lib/md5.c:173-254 | For every state and block the unrolled transform equals the 64-step loop of section 3.4 of RFC 1321. |
| Md5.CountIsExact | lib/md5.c:73-79 | The two 32-bit words with the manual carry are 8 times the length modulo 2^64 after any update. |
| Md5.TailFromCount | lib/md5.c:78 | The number of waiting bytes that is read off the low count word is the length modulo 64, even after the count wrapped. |
| Md5.PadOne | lib/md5.c:129-148 | With fewer than 56 waiting bytes, one block holds the RFC's padding. |
| Md5.PadTwo | lib/md5.c:129-139 | With 56 or more, the padding takes two blocks. |
| Md5.Md5Context.Init | lib/md5.c:52-61 | The context stands for the empty message. |
| Md5.Md5Context.Update | lib/md5.c:67-109 | The context after an update stands for the old message followed by the data: registers, bit count and waiting bytes are all those of the concatenation. |
| Md5.Md5Context.FillBlock | lib/md5.c:80-95 | The odd-sized leading chunk either stays waiting or completes exactly one block. |
| Md5.Md5Context.FoldBlocks | lib/md5.c:96-104 | Whole blocks are absorbed one by one until fewer than 64 bytes are left. |
| Md5.Md5Context.PadTo56 | lib/md5.c:115-147 | In both padding cases what has been absorbed, followed by the first 56 bytes of the last block and the bit count, is the padded message of sections 3.1 and 3.2 of RFC 1321. |
| Md5.Md5Context.Final | lib/md5.c:115-154 | The digest is that of RFC 1321 for the message passed since Init; of the context only the first two registers are cleared, because sizeof is taken of the (64-bit) pointer: the other half of the digest stays in it. |
| Md5.DigestOfPieces | lib/md5.c:52-154 | However a message is cut into updates, the digest is the RFC's digest of the concatenation. |
| Md5.MD5Digest | lib/md5.c:256-261 | The one-call form is the RFC's digest. |
| Md5.MD5HMAC | lib/md5.c:281-319 | The keyed digest is the HMAC of section 2 of RFC 2104 for every key, hashed only when longer than 64 bytes. |
| Md5.MD5HMAC2 | lib/md5.c:321-361 | The two-part form is the HMAC of the concatenation. |
| Md5Spec.InitCounts | lib/md5.c:52-61 | The initial registers are the bytes 01 23 45 67 up to EF and down again of section 3.3 of RFC 1321. |
| Md5Spec.Le32Number | lib/md5.c:143-148 | Words are written low-order byte first. |
| Md5Spec.HmacPads | lib/md5.c:281-319 | For a key of at most 64 bytes the inner pad is the key exclusive-or 36 and the outer pad the key exclusive-or 5c, and where the key does not reach just 36 and 5c. |
| Md5Spec.HmacLongKey | lib/md5.c:291-302 | A key longer than a block stands for its digest. |
| IntrusiveList.ListAdd | lib/list.h:40-48 | The node is linked between its two neighbours, whose other links stay. |
| IntrusiveList.ListAddTail | lib/list.h:71-74 | The ring that starts at the head gains the node at its end and stays a ring. |
| IntrusiveList.ListAddHead | lib/list.h:58-61 | The ring gains the node just after the head. |
| IntrusiveList.ListDelInit | lib/list.h:105-109 | The node becomes a ring by itself and the rest closes up in order. |
| ListPair.ListPair.constructor | network/fdinfo.c:42-49 | All nodes start self-linked and both lists empty. |
| ListPair.ListPair.Detach | lib/list.h:105-109 | list_del_init on a node that may be on either list or on none: it leaves the list it is on, the order of everything else is kept, all rings stay well formed. |
| ListPair.ListPair.MoveSideToHome | network/vfs_so.c:383-387 | The iteration that moves nodes while walking ends and appends the whole tmp list to the home list in order. |
| Engine.AddToPend | network/vfs_so.c:168-172 | The connection ends up at the end of the chosen list and on no other. |
| Engine.Engine.DoClose | network/vfs_so.c:147-166 | The connection is closed, after the callback had its effect on others, and no list changes; closing a closed one does nothing. |
| Engine.Engine.DoSend | network/vfs_so.c:174-200 | Lists, open connections and calls move as the specification says for every environment; what that means is stated by `EngineSpec.ThrottledSend` and `EngineSpec.SendOutcome`. |
| Engine.Engine.DoRecv | network/vfs_so.c:289-377 | The same for the receive side, stated by `EngineSpec.ThrottledRecv` and `EngineSpec.RecvOutcome`. |
| Engine.Engine.ServeSend | network/vfs_so.c:389-393 | The pointer walk over send_list, whose calls unlink and relink nodes, refines the loop over the sequence. |
| Engine.Engine.ServeRecv | network/vfs_so.c:401-405 | The same for recv_list, whose calls also put nodes on send_list. |
| Engine.Engine.ScanPendList | network/vfs_so.c:379-406 | The scan ends, refines its specification, and makes one do_send call for each connection of send_list followed by tmp_send_list at entry, then one do_recv call for each of the receive lists, in that order; one that is open and that no callback closes gets its call; what is still pending was served in this scan. |
| Engine.Engine.DoProcess | network/vfs_so.c:408-426 | An event reaches do_recv and then do_send as its bits say, and closes the connection without either. |
| Engine.Engine.Accept | network/vfs_so.c:68-82 | A new connection occupies its slot and touches no other and no list. |
| Engine.Run | network/vfs_so.c:379-426 | Refinement over whole runs: for every schedule of accepting, polling and scanning and every environment the linked lists hold exactly the sequences of the specification, and exactly its calls have been made; every node is on at most one list of its side, all rings are well formed, and a connection is pending only if it has been handed to do_send (do_recv). |
| EngineSpec.ServeSendsCalls | network/vfs_so.c:389-393 | Serving send_list makes one call per connection, in order, with its number or with -1 if it is closed; open ones that no callback closes get theirs; nothing joins tmp_send_list but what was served, and nothing at all without throttling. |
| EngineSpec.ServeRecvsCalls | network/vfs_so.c:401-405 | The same for recv_list; what joins send_list meanwhile was served too. |
| EngineSpec.ScanCalls | network/vfs_so.c:379-406 | A whole scan: every pending connection is called once, sends before receives, in list order; tmp_recv_list then holds exactly the throttled do_recv calls in their order, and so does tmp_send_list for do_send if no do_recv went on to a do_send; every throttled do_send is pending; nothing is pending that was not served, and nothing at all without throttling. |
| EngineSpec.PolledIsHandled | network/vfs_so.c:408-426 | Over any run, every event that was polled has reached do_recv or do_send as its bits say. |
| EngineSpec.ThrottledSend | network/vfs_so.c:187-201 | A throttled connection becomes the last of send_list, or during a scan of tmp_send_list, and is on no other; the others keep their order, and no connection is closed and no callback made. |
| EngineSpec.ThrottledRecv | network/vfs_so.c:302-315 | The same for the receive lists. |
| EngineSpec.SendOutcome | network/vfs_so.c:174-286 | On a closed connection do_send does nothing. On an open one that is not throttled no list changes, and it stays open exactly if the transfer does not fail, the plug-in does not ask to close after the last byte, and no callback closes it. |
| EngineSpec.RecvOutcome | network/vfs_so.c:289-377 | The same for do_recv: the end of the stream, an error and the answer to close leave the connection closed, and do_send is called exactly when the plug-in answers so. |
| EngineSpec.PollOutcome | network/vfs_so.c:408-426 | An event without either bit closes the connection without a transfer and changes no list; the others make the calls that their bits say. |
| EngineSpec.AcceptedIsServed | network/vfs_so.c:120-142 | After any run, a connection that is accepted is open, and its first writable event is served, or waits at the end of send_list if it is throttled. |
| EngineSpec.AfterApart | network/vfs_so.c:168-172 | Over any run no connection is on a list twice or on both lists of a side. |
| EngineSpec.PendingUntilScan | network/vfs_so.c:408-426 | Over any run, what is pending stays pending until the next scan. |
| EngineSpec.SendIsRetried | network/vfs_so.c:379-406 | Over any run, a polled do_send that is throttled waits for the next scan, and that scan calls do_send for the connection again, unless it has been closed. |
| EngineSpec.RecvIsRetried | network/vfs_so.c:379-406 | The same for do_recv, for a connection that is not waiting for do_send as well. |
| MyBuff.MyBuff.SetData | network/mybuff.c:23-47 | Appends to the byte queue, growing when needed, and always leaves room for one more byte. |
| MyBuff.MyBuff.GetData | network/mybuff.c:48-56 | Yields the whole queue, and fails exactly when it is empty, allocated or not. |
| MyBuff.MyBuff.SkipData | network/mybuff.c:57-68 | Removes from the front of the queue, and empties it when asked for more than it has. |
| MyBuff.MyBuff.SetFile | network/mybuff.c:69-77 | Queues a file slice, closing the descriptor that was queued before, and leaves the data alone. |
| MyBuff.MyBuff.GetFile | network/mybuff.c:78-86 | Yields the pending slice, and fails exactly when there is none. |
| MyBuff.MyBuff.SkipFile | network/mybuff.c:87-98 | Advances the slice, or closes and forgets it when all of it is consumed. |
| MyBuff.MyBuff.Reinit | network/mybuff.c:100-114 | Empties the queue, closes a queued descriptor, and gives back the memory of an outgrown buffer. |
| SendPath.SendData | network/vfs_so.c:208-233 | Bytes sent followed by bytes queued stay the same; the verdict is to go on exactly when the queue is empty, and to close exactly on a fatal error. |
| SendPath.Transfer | network/vfs_so.c:210-231 | The retry loop ends with the first answer that is not an interrupt, and moves what that answer allows. |
| SendPath.InterruptsSkipped | network/vfs_so.c:210-231 | However many interrupts come first, the first other answer decides how much is moved and which error is seen. |
| SendPath.SendFile | network/vfs_so.c:234-260 | The same for the file slice, at most 1 GB at a time. |
| SendPath.DoSend | network/vfs_so.c:202-286 | Sent bytes, queued data and remaining slice keep their concatenation under every partial send; file bytes leave only after all data; the plug-in may go on exactly when both are drained; the connection is to be closed exactly when queued data cannot move for another reason than EAGAIN, or the data is gone and the slice cannot move for a fatal reason. |
| SendPath.SendResponse | network/vfs_so.c:202-286 | Over any number of calls a response of data and a file slice appears on the wire in order and is complete exactly when a call says so. The connection is closed exactly if some call fails while something is left, nothing moves after the first such call, and how many bytes are out is exact. As many harmless calls that move something as the response has bytes get it out. |
| SendPath.QueueingKeepsOrder | network/mybuff.c:23-47 | Exact condition on a buffer: queueing data keeps the order of queueing, for whatever data, exactly when no byte of a file slice is pending. |
| SendPath.QueueData | network/mybuff.c:23-47 | Queueing data puts it behind the queued data and before the pending slice. |
| SendPath.DataOvertakes | network/vfs_so.c:202-286 | The failing input: a one-byte slice queued first and a byte of data queued after it reach the wire in the opposite order. |
| RecvPath.DoRecv | network/vfs_so.c:319-355 | The answers up to and including the first that is neither a full buffer nor an interrupt are taken; what they received is queued in order and once, and the connection is closed exactly when one of them is the end of the stream or an error. |
| RecvPath.StopsAt | network/vfs_so.c:319-355 | Behind full buffers and interrupts the first short read, EAGAIN, end of stream or error is the last answer taken, and of these only the end of the stream and an error close. |
| RecvPath.ReceiveAll | network/vfs_so.c:289-355 | Over any number of read events the queue grows by what the taken answers received, in order, up to the first that closes; the connection is open at the end exactly when none of them does. |
| ProVoss.Be32RoundTrip | lib/pro_voss.c:31-33 | Big-endian conversion of 32-bit words is inverted by the parser's conversion. |
| ProVoss.FrameBytes | lib/pro_voss.c:26-52 | Which bytes of a record hold what: bytes 0 to 3 the total length, 4 to 7 the command, 8 to 11 the sequence number, each high-order byte first, and from byte 12 on the body. |
| ProVoss.ParseFrame | lib/pro_voss.c:26-65 | The header of a created message parses back whatever part of the body has arrived and whatever follows, and fewer than 12 bytes are reported as insufficient. |
| ProVoss.Codec.GetSeq | lib/pro_voss.c:20-24 | Sequence numbers count up from 1 and wrap at 2^32. |
| ProVoss.Codec.CreateMsg | lib/pro_voss.c:26-52 | The output buffer holds the framed record with the next sequence number, and nothing behind it is touched. |
| Voss.Peer.WriteSome | network/voss/vfs_voss_sub.c:79-101 | One write moves exactly what it takes, at most the rest of the record, from the buffer to the work file; the peer becomes idle exactly when that completes the payload; a failed one changes nothing. |
| Voss.Delivered | network/voss/vfs_voss_sub.c:79-91 | Any number of payload bytes may be written next: what has been written, what is missing and what is still to come stay in step. |
| Voss.NextHeader | lib/pro_voss.c:54-65 | Between records the buffer starts with the next record's header or is too short to hold it. |
| Voss.Peer.SubRecv | network/voss/vfs_voss_sub.c:66-104 | Receiving a record goes as the specification says: the answer tells whether the record goes on, or svc_recv does. |
| Voss.Peer.ProcessDataReq | network/voss/vfs_voss_sub.c:106-134 | The header is consumed and reception of the body begins; a record with an empty body stays unfinished exactly when nothing is buffered behind its header. |
| Voss.DrainRests | network/voss/vfs_voss_sub.c:66-134 | Draining a buffer, with whatever the writes take, keeps written, missing, buffered and coming bytes in balance, and comes to rest: bytes of a record are left in the buffer exactly when the last write was short, and between records no whole request is left. |
| Voss.ShortWriteMoves | network/voss/vfs_voss_sub.c:66-104 | A write that takes less than is there for the record moves exactly what it takes, and nothing else is done. |
| Voss.ShortIsExact | network/voss/vfs_voss_sub.c:84-103 | Exact condition: once everything has arrived, the output is complete exactly when the last write of the last arrival took all it was offered, and that is whenever this arrival's writes are ample; what the writes of earlier arrivals took does not matter. |
| Voss.Receive | network/voss/vfs_voss_sub.c:66-134 | However a stream of framed records is fragmented and whatever each write takes, a connection that is not closed has written, and holds in its buffer, exactly what the specification says; so it has written all payloads exactly when the last write was not short. A closed one has written a prefix, and only failures close. |
| Voss.OneByteWrites | network/voss/vfs_voss_sub.c:66-134 | One submitted record in one piece with writes of one byte: only the first byte of the body reaches the file, the rest stays in the buffer, and the peer stays in the record. |
| Voss.ShortWrite | network/voss/vfs_voss_sub.c:84-103 | The failing input for short writes: the body 7, 8 leaves 7 in the file and 8 in the buffer, with nothing to come and no failure. |
| Voss.EmptyBody | network/voss/vfs_voss_sub.c:106-134 | The failing input for empty bodies: a record of twelve bytes leaves the peer in the middle of a record. |
| Voss.TwelveBytes | lib/pro_voss.c:26-52 | The bytes of that record: length 12, command 2, number 1. |
| SplitMerge.SplitTask | network/uc_client/vfs_data_sub.c:63-92 | The tasks are numbered from 1 and their ranges are non-empty, consecutive, and whole pieces except the last, which ends with the file; the call fails exactly when task records run out. |
| SplitMerge.EveryByteOnce | network/uc_client/vfs_data_sub.c:77-90 | Every byte of the file lies in exactly one range. |
| SplitMerge.TaskTable.Get | network/sm_http/vfs_http_sub.c:68-79 | The fetch takes the newest report off the table, whether it is expired or not, and nothing else. |
| SplitMerge.TaskTable.Check | network/sm_http/vfs_http_sub.c:145-149 | The check succeeds exactly when a report with the given expiry flag is anywhere on the table, not only in front. |
| SplitMerge.TaskTable.AllSubIsOk | network/sm_http/vfs_http_sub.c:140-152 | Succeeds exactly when every index from 1 to count has some unexpired report. |
| SplitMerge.TaskTable.CheckLackTask | network/sm_http/vfs_http_sub.c:168-214 | Once per local file, the parts without a file on disk are asked for again, in order and as long as there are task records, and exactly the newest reports of these parts, from whatever host, are flagged as expired. |
| SplitMerge.BaseIs | network/sm_http/vfs_http_sub.c:170-176 | The base name is what follows the last slash, or everything if there is none. |
| SplitMerge.SameLocal | network/sm_http/vfs_http_sub.c:170-176 | Two names stand for one local file exactly if host and base name agree. |
| SplitMerge.FirstAsked | network/sm_http/vfs_http_sub.c:168-214 | When the first part of a file has finished, all others are asked for; later none. |
| SplitMerge.NothingFlagged | network/sm_http/vfs_http_sub.c:206-211 | Before anything of the file has been reported the flagging changes nothing. |
| SplitMerge.RemoveOther | network/sm_http/vfs_http_sub.c:66-79 | Taking one report off the table leaves the newest report of every other index the same. |
| SplitMerge.CopyPart | network/sm_http/vfs_http_sub.c:87-108 | However the reads are cut, what was copied is a prefix of the part, and all of it without an error. |
| SplitMerge.MovePart | network/sm_http/vfs_http_sub.c:80-115 | A part is copied and its file unlinked; a file that is not there is an error. |
| SplitMerge.DoMergeFile | network/sm_http/vfs_http_sub.c:54-119 | With healthy I/O the output is the concatenation, in index order, of the files whose newest reports are unexpired, up to the first part whose report or file is missing; one report of each part looked at leaves the table and the copied files leave the disk. Whatever fails, the output is a prefix of that, and nothing appears on the table or the disk. |
| SplitMerge.MergeIsExact | network/sm_http/vfs_http_sub.c:54-119 | When the files on disk hold the bytes of their ranges, the merged file is the original exactly when, for every index, the newest report is unexpired and its file is on disk. |
| SplitMerge.ShadowedReport | network/sm_http/vfs_http_sub.c:239-245 | Counterexample, through check_fin_task alone: two hosts have a file of the same name; the second one's check flags a report of the first one's, an older report of that part passes the completion check, and the merge loses the part. |
| SplitMerge.TakenCounts | network/sm_http/vfs_http_sub.c:66-79 | A merge takes one report of each part and no report of any other. |
| SplitMerge.FinishIsExact | network/sm_http/vfs_http_sub.c:239-245 | Exact condition for each merge of a run: it is the original exactly when every part file is on disk when it starts. |
| SplitMerge.FirstMerge | network/sm_http/vfs_http_sub.c:216-247 | The first merge comes exactly when every part has been reported, and is the original. |
| SplitMerge.OneMerge | network/sm_http/vfs_http_sub.c:216-247 | If every part is reported and some part only once, there is one merge, the original, in whatever order and however often the others are reported. |
| SplitMerge.RepeatedReports | network/sm_http/vfs_http_sub.c:104-119 | Counterexample: two parts that are each reported twice, as when the file is submitted again, lead to a second merge, which finds a left-over report without its file and empties the output. |
| SplitMerge.Report | network/sm_http/vfs_http_sub.c:239-242 | A finished part: its bytes are on disk, the lacking parts are asked for the first time round, never the part itself, and its report is in front. |
| SplitMerge.MergeIfReady | network/sm_http/vfs_http_sub.c:243-244 | There is a merge exactly when every part has an unexpired report from some host, and then table, disk and output are those of the merge. |
| SplitMerge.ReportPart | network/sm_http/vfs_http_sub.c:239-242 | For a file from one host, the state of the file advances by one report and one part file, and the part is not asked for again. |
| SplitMerge.MergeIfComplete | network/sm_http/vfs_http_sub.c:243-244 | There is a merge exactly when no part lacks a report, and it leaves table and disk in the state the run specification says. |
| SplitMerge.FinishPart | network/sm_http/vfs_http_sub.c:239-245 | Both halves together: one finished part takes table, disk and merged files through one step of the run specification, and leaves reports and part files of every other file alone. |
| SplitMerge.FaresElsewhere | network/sm_http/vfs_http_sub.c:216-247 | How a file stands does not change when a part of another file, with another name and another local file, finishes. |
| SplitMerge.DifferentNames | network/sm_http/vfs_http_sub.c:170-176 | Files of one host with different base names cannot be taken for one another. |
| SplitMerge.FinishAll | network/sm_http/vfs_http_sub.c:216-247 | Parts of any number of files, with different names and local files, finish in any order, any number of times and interleaved in any way on one table: each file gets the requests, the part files and the merges that it would have alone; there is a merge exactly when every part was reported, everything merged is a prefix of the original, and with healthy I/O the merges are those of the run specification, whose first is the original. |
| StrExplode.StrExplode | lib/util_str.c:24-60 | The in-place tokenizer returns the starts of the specification's fields and changes the line only by the NUL at the end of each field; all scans stay inside the line and end. |
| StrExplode.CutField | lib/util_str.c:38-58 | One turn of the loop cuts off exactly the next field: quoted, last with trailing separators trimmed, or ordinary. |
| StrExplode.BuildIfs | lib/util_str.c:13-17 | The table flags exactly the given characters, never NUL. |
| StrExplode.ChooseTable | lib/util_str.c:28-35 | The table in force is that of blanks, the caller's own, or the one of the caller's characters; it never flags NUL. |
| StrExplode.FieldsInOrder | lib/util_str.c:24-60 | Fields come in order, do not overlap, and are at most n. |
| StrExplode.FieldsAreWellCut | lib/util_str.c:38-58 | A quoted field runs to its matching quote or the end; an unquoted n-th field is the rest without trailing separators; any other field holds no separator and ends at one or at the end. |
| StrExplode.NothingIsSkipped | lib/util_str.c:37-59 | Only separators are left out before, between and, short of the n-th field, after the fields. |
| StrExplode.FieldsByCharacter | lib/util_str.c:11-60 | The fields in terms of characters: the quotes are 34 and 39, the default separators 9, 10, 13 and 32; a field is quoted exactly if it begins with a quote, an unquoted one short of the n-th has no separator in it, and only separators precede a field. |
| StrExplode.FieldText | lib/util_str.c:40-57 | After the call every field still reads as it did in the line, and ends at its NUL, whatever the other cuts were. |
| Base64.Base64Encode | lib/common.c:172-197 | The output is the encoding of section 4 of RFC 4648, with or without padding, followed by NUL, and nothing else is written. |
| Base64.EncodeBits | lib/common.c:179-191 | The first loop writes one symbol per six bits, in order, for every length. |
| Base64.PadOut | lib/common.c:193-194 | The second loop pads to a multiple of four, when asked to. |
| Base64.CutOutIsSextet | lib/common.c:179-189 | The bits that the rolling offsets cut out of one or two bytes are the sextet of the three-byte group. |
| Base64.OrIsSum | lib/common.c:185-188 | A bitwise or of numbers without a common bit position is their sum. |
| Base64.EncodedLength | lib/common.c:177-194 | The length is 4 * ceil(n / 3) with padding and ceil(4 * n / 3) without. |
| Base64.AlphabetRuns | lib/common.c:170-176 | The alphabet is that of table 1 of RFC 4648: capitals, small letters, digits, plus, slash. |
| Base64.TestVectors | lib/common.c:172-197 | The encodings of f and fo in section 10 of RFC 4648. |
| Base64.LongerVectors | lib/common.c:172-197 | The encodings of foo and fooba in section 10 of RFC 4648. |
| Base64.RoundTrip | lib/common.c:172-197 | A reference decoder inverts the encoding of every byte string. |
| TimerPool.TimerPool.constructor | network/vfs_timer.c:22-42 | The pool starts with every node on delay_home. |
| TimerPool.TimerPool.AddToDelayTask | network/vfs_timer.c:44-84 | The new timer becomes the first active one, on a free node or new memory; without either nothing changes. |
| TimerPool.TimerPool.Examine | network/vfs_timer.c:104-118 | A due looping timer gets its next time, a due one-shot timer goes back to delay_home, any other stays; the rest of the list keeps its order. |
| TimerPool.TimerPool.ScanDelayTask | network/vfs_timer.c:86-122 | Every active timer is examined once although nodes move during the walk: the callbacks made and the timers left are those of the specification, and no node is lost. |
| TimerPool.Replay | network/vfs_timer.c:22-122 | Any run of adds and scans, on a pool stocked with any number of nodes, makes the specification's callbacks in its order. |
| TimerSpec.RunIsPerTimer | network/vfs_timer.c:86-122 | Over a whole run a timer lives and fires exactly as it would alone, whatever others are added. |
| TimerSpec.OneShot | network/vfs_timer.c:101-119 | A one-shot timer fires exactly once, at the first scan strictly after its time, and not before there is one. |
| TimerSpec.Looping | network/vfs_timer.c:101-119 | A looping timer never stops, and its firings are more than its span apart. |
| TimerSpec.OneShotRun | network/vfs_timer.c:44-122 | Over any run, the callback of a one-shot timer added at time t with span d is made at exactly the first later scan strictly after t + d, and never again. |
| TimerSpec.LoopingRun | network/vfs_timer.c:44-122 | Over any run, the callbacks of a looping timer are made at exactly the first later scan strictly after t + d, and then at each first scan more than d after the previous callback. |
| TimerSpec.NewestFirst | network/vfs_timer.c:78-110 | Of two timers the one that was added later is called first in every scan in which both fire. |
| TimeStamp.CellsAreApart | network/vfs_time_stamp.c:217-222 | Two places share their 8-byte cell or their cells have no byte in common, for both files; large domains alias modulo MAXFCS. |
| TimeStamp.CellsInOrder | network/vfs_time_stamp.c:217-222 | The cells lie in the order of first directory, second directory and domain; domains from the width on start over. |
| TimeStamp.WriteOneCell | network/vfs_time_stamp.c:252-270 | Writing one cell changes what the places of that cell read, and no other reading. |
| TimeStamp.LoadStored | network/vfs_time_stamp.c:125-172 | Every 64-bit time, negative ones included, is read back as written. |
| TimeStamp.StoredBytes | network/vfs_time_stamp.c:125-172 | A cell is the 64-bit two's complement of its time, low-order byte first. |
| TimeStamp.StampFile.constructor | network/vfs_time_stamp.c:99-123 | Opening keeps what an existing file holds, brought to its size; a new file reads as zeros. |
| TimeStamp.StampFile.SetByInt | network/vfs_time_stamp.c:154-172 | After a write every place of the cell reads the new value and every other place what it read before. |
| TimeStamp.StampFile.Set | network/vfs_time_stamp.c:174-189 | A cell moves only forward and only for accepted updates; all other cells stay. |
| TimeStamp.NewestIsMaximum | network/vfs_time_stamp.c:174-189 | The reference value of a run is the initial value or that of an accepted update of the cell, and neither the initial value nor any accepted update of the cell exceeds it. |
| TimeStamp.Replay | network/vfs_time_stamp.c:125-297 | After any run of updates on a file with any contents every place reads the maximum of what it read before and the stamps accepted for its cell. |
| TimeStamp.ReplayTwice | network/vfs_time_stamp.c:99-189 | A restart between two runs loses nothing: the result is that of one run over all updates. |
| Moni.CalLimit | network/moni.c:59-103 | The in-place computation with its early returns and clamps is the adjustment for the load that the traffic amounts to. |
| Moni.LoadMonotone | network/moni.c:61-84 | More traffic is never rated a lighter load, across the integer divisions and the minimum size. |
| Moni.LoadIs | network/moni.c:61-84 | The loads without the divisions: idle below 1024 bytes, and then up to 160, 240, 300 and 400 parts in 255 of the limit. |
| Moni.AdjustMonotone | network/moni.c:61-103 | Doubling, stepping, holding, stepping back and halving with their clamps are monotone in ratio and load together. |
| Moni.Steady | network/moni.c:59-103 | Under a steady load the ratio after n measurements is r * 2^n, r + 3n, r, r - 3n, r - 6n or r / 2^n, cut off at the end of the band. |
| Moni.StepsNeeded | network/moni.c:59-103 | Light load has the ratio at 255 exactly after a third of what was missing, overload has it at 5 exactly when it has been halved below 6. |
| Moni.RunsMonotone | network/moni.c:59-103 | Of two runs in lockstep, the one that always sees at least as much traffic and starts no higher is never above the other; both stay in [5, 255]. |

## Left out

- Sockets, epoll, `sendfile64`, System V shared memory, real files, locks, threads and clocks; one sequential actor with atomic calls is modelled.
- Failure of memory allocation, and attachments of other processes that go stale when a table is rebuilt.
- Overflow of C integers in sizes and counts (`12 * nhash`, `len * 8`, the number of pieces, file offsets); values of metrics, MD5 words and counts, and sequence numbers do wrap.
- Shared-memory keys 0 and from 2^31 on, and the `Next` overload with a key, whose cursor `Find` no longer sets.
- NmShm.NmShm.constructor: both tables have at least five records, because smaller ones cannot take arbitrary keys; reads do not overlap.
- The string-buffer variant of the metrics table.
- Engine.Engine.DoSend: which verdict a transfer ends with is part of the environment here; what decides it is proved in `SendPath.DoSend`, on one connection's buffer.
- Engine.Engine.DoRecv: the received bytes are the subject of `RecvPath.DoRecv`; the plug-in's answer is part of the environment.
- A descriptor that another thread reuses while its node is still on a list, and the accept loop itself with its failures.
- Engine.Engine.constructor: slots that were never opened hold 0 in their fd field in the source and -1 here; they are never polled.
- SendPath.SendFile: a `sendfile64` that moves nothing at the end of the file leaves a stale `errno`, which is an arbitrary value here, but not that of an interrupt, with which the loop would not end.
- `mybuff_fini`, and the closing of descriptors as a system call.
- Voss.Receive: streams of well-formed records below 2^31 bytes; lengths below the header size and unknown commands are not part of the streams. The body of a control record has no effect here.
- Rotation and renaming of work files, the log of control commands, and the heartbeat lists.
- SplitMerge.DoMergeFile: the MD5 comparison and the report to the origin after a merge; a part file that shrinks while it is read.
- The hash buckets of the task table (all candidates of one search share a bucket and its order), retries, the `once > 128` exit and the final-failure path of `check_fin_task`.
- SplitMerge.FinishAll: downloads are complete when they are reported. In the source a download that starts again truncates the part file at once, possibly before or during a merge that reads it.
- Collisions of part file names whose base names end in digits.
- TimerPool.Replay: memory allocation succeeds when the stocked nodes are used up; `AddToDelayTask` has the failing case.
- TimerPool.TimerPool.ScanDelayTask: callbacks do not re-enter the pool, and the lock is obtained.
- TimeStamp.StampFile.Set: seeks, reads and writes succeed; the directory pair and the domain are arguments instead of being parsed from names, and being on line is the argument `accepted`.
- Moni.CalLimit: the default thresholds, a positive limit, counters that do not run backwards, and a ratio that starts inside its band.
- `vfs_so_bk.c` and `vfs_so_r.c`, which are not built, and `dst_http`, a near copy of `sm_http`.
- `vfs_del_file.c`, `vfs_file_filter.c`, the hex codec, IP conversion, general hashes, watchdog counters, plug-in loading, logging and configuration: little beyond easy members.
