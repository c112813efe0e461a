# P_Arthur: a verified model

P_Arthur is a distributed web crawler. A king spreads the sites of the web over queens, crawlers visit
the pages of a host again and again, and results travel through a shared-memory queue and over multicast.
This project models the data structures and protocols that the crawler writes by hand, and proves what
they are for. `dafny verify dfyconfig.toml` checks all of it.

| module | file | what it is |
|---|---|---|
| `MessageQueue`, `MessageCalls` | MessageQueue.dfy, MessageCalls.dfy | the message queue in shared memory, step by step and seen from its callers: every interleaving of any number of readers and writers, with each semaphore operation, each byte copied and each index advance a step of its own |
| `GreyQueue`, `ConnectedDominatingSet` | GreyQueue.dfy, Cds.dfy | the greedy algorithm for a connected dominating set over a bucket queue of doubly linked lists |
| `LinePool` | LinePool.dfy | the ring of lines in a file |
| `IndexQueues` | IndexQueue.dfy | a list with a key index, used by the multicast receiver and the crawl frontier |
| `Multicast`, `MulticastSession`, `MulticastReceiver`, `MulticastDelivery`, `MulticastRestarts`, `MulticastReports`, `Datagram`, `Networks`, `Decimal` | Multicast.dfy, MulticastSession.dfy, MulticastReceiver.dfy, Delivery.dfy, Restart.dfy, Statistics.dfy, Datagram.dfy, Network.dfy, Decimal.dfy | fragments, reassembly, sessions and loss statistics, also of senders that start again; the bytes of a datagram, and the whole way of a message |
| `LineMessages`, `UltraServers` | LineMessage.dfy, UltraServer.dfy | the line protocol between king and queens, cut into arbitrary reads |
| `SpillPools`, `QueenBoxes`, `Realms`, `Kings`, `StrandedMessages` | SpillPool.dfy, QueenBox.dfy, Realm.dfy, King.dfy, Stranded.dfy | spill pools, outboxes, and the ownership of sites; runs that strand or spoil messages |
| `Merge` | Merge.dfy | the merge of counted streams |
| `Bitmaps`, `MultiHash`, `Shadows`, `ShadowChains` | Bitmap.dfy, MultiHash.dfy, Shadow.dfy, ShadowChain.dfy | the growing chain of Bloom filters |
| `Tasks`, `TaskStream`, `Mosquitos` | Task.dfy, TaskStream.dfy, Mosquito.dfy | when a page is visited again, where tasks go after a turn, and the crawl of one host |
| `Escapes`, `Uris`, `UriMeanings` | Escapes.dfy, Uri.dfy, UriMeaning.dfy | correction and normalization of addresses |

`Counting` and `RingArithmetic` hold the lemmas about counting and about remainders that several modules use.

Objects whose methods change fields are classes; each such method is proved against a function of the old
state, and what the original promises is proved about that function, or is part of `Valid`. Where the
original throws, the model shows the failure as a result, or the proof shows that it is unreachable; what it
asserts of its callers is a precondition.

## What the code does not keep

Some promises fail. The code is modelled as it is. Where a promise depends on the input, a lemma says exactly
when the code keeps it, and a lemma or a run gives an input on which it does not.

* `put` of the message queue reports 0 remaining messages when the queue is full (`MessageCalls.PutReturns`;
  one slot and one message, `MessageQueue.FullQueue`).
* When senders start again, a late goodbye of an earlier life can carry the number at which the statistics start,
  so that they divide by zero (`Multicast.StaleGoodbye`), or one that gives a loss of 200 percent
  (`MulticastRestarts.TwiceLost`). Whatever arrives, the receive loop fails exactly if some goodbye does the former,
  and otherwise all its ratios are percentages exactly if none does the latter (`MulticastRestarts.RunExactly`,
  `MulticastSession.RatioExactly`).
* A datagram of more than 1044 bytes loses its tail, and the receiver puts other bytes in its place
  (`Datagram.RoundTripExactly`; fragment 1000 of message 1000000000, `Datagram.LongHeader`).
* A line of 4095 characters or more, or one with a NUL, does not come out of a pool as it went in, and after a
  long one the pool is read from the wrong place (`LinePool.LinePool.PopALine`, `LinePool.LongLine`). A reference
  by a link with a text of 5000 characters is such a line; the king accepts it (`StrandedMessages.Accepted`), and
  when its queen leaves and comes back it is gone (`StrandedMessages.Spoiled`). Without such messages nothing is
  lost in that way (`QueenBoxes.NotAllKeepable`, `Kings.King.FinishedMeans`).
* A composed GROUP message calls itself a LEFT message, though its line is right (`LineMessages.LineMessage.ComposeGroup`).
* A spill of an outbox no longer tells control messages from URL messages once they reach into its last 500
  lines (`QueenBoxes.QueenBox.ExchangePool`; 9502 of them, `QueenBoxes.TooManyControls`).
* The king counts the work as finished while messages are left in his pool, where no queen will get them in that
  run. If his buffer never spilled, which it does exactly above 200000 messages, all have reached their owners;
  otherwise, if none was spoiled by a pool, they have, or were refused, exactly if the pool is empty
  (`Kings.King.FinishedMeans`); and if all queens are there and their boxes never spilled either, all were sent
  (`Kings.King.AllSent`). `StrandedMessages.Stranded` is a run that ends with messages in the pool.
* The keys of a merge are strictly increasing only if those of every input are; sums are right in any case
  (`Merge.Merge`).
* The size of a filter body is looked for without end if twice the capacity, in 32 bits, is above 2 to the
  power of 31 (`Shadows.BodySizeEndsExactly`; 2 to the power of 30 and one, `Shadows.NeverEnds`). A capacity of
  2 to the power of 31 or more wraps around, and the filter is smaller than asked for (`Shadows.Open`).
* A filter with a body of 2 to the power of 29 bytes can be opened, but the 32-bit size of its bitmap is 0, so
  that every use of it fails the assertion on the index; all smaller ones can be used
  (`Shadows.Shadow.IndexesBelow`, `Shadows.Open`; capacity 2 to the power of 28, `Shadows.Shadow.TopIsUnusable`).
* A task that was visited and is so no more goes to none of the lists (`TaskStream.LostExactly`); no turn of a
  crawl does that (`TaskStream.NeverLost`).
* Escape normalization changes the meaning of a text in which a stray percent sign stands before two
  hexadecimal digits of which one is escaped (`Escapes.MeaningKeptExactly`, `Escapes.TwoPasses`); of a corrected
  text it does not (`Escapes.NormedOnce`). The grammar of addresses admits a percent sign only in an escape, so only
  a direct caller of `normalize_escaped` can pass such a text.
* A reference without a path, as to a place on the same page, leads to the root of the host, as the reference is
  given a path before it is resolved (`Uris.LinkedNormal`).
* The crawl resolves links without normalizing them again, so that one page can be queued under two addresses:
  from /d/p, the link a/../b leads to /d/a/../b, which is /d/b (`Uris.TwoAddresses`). A resolved link is normal
  as it is exactly under the condition of `Uris.LinkNormalExactly`.

## Model

| member | source | states |
|---|---|---|
| MessageCalls.FirstInFirstOut | src/util/msgq.cpp:142-228 | In every run, a get that got read ticket k returned the text that was given to the k-th put that advanced, up to its first NUL; no two processes hold the same ticket; never more than nmsgs texts are unread. |
| MessageCalls.WrittenAsGiven | src/util/msgq.cpp:198-228 | At every moment of a run, the k-th message written is the text given to the k-th put that advanced the write index, up to its first NUL, and the messages read are the first of them. |
| MessageCalls.GetReturns | src/util/msgq.cpp:142-163 | A get that returned took exactly the message it returned, and added none; the number it reports is that of the unread messages in the state in which it computed it, and less than nmsgs. |
| MessageCalls.PutReturns | src/util/msgq.cpp:198-228 | A put that returned added exactly one message, its own text up to the first NUL, and took none; the number it reports is that of the unread messages in the state in which it computed it if and only if the queue was not full there, and 0 if it was. |
| MessageCalls.FailedDidNothing | src/util/msgq.cpp:142-228 | A call that failed added and took nothing. |
| MessageCalls.RefusedExactly | src/util/msgq.cpp:198-209 | A put fails at once if and only if its text, up to the first NUL, is empty or longer than a slot less one. |
| MessageCalls.GivesUpExactly | src/util/msgq.cpp:149-214 | Later, a call fails exactly if it was not to wait and its first semaphore is at 0; then every unread message, or every free slot, is in the hands of another call. |
| MessageQueue.ReadAsWritten | src/util/msgq.cpp:142-228 | In every run, the messages read are a prefix of those written, in order; a get with ticket k returned the k-th of them. |
| MessageQueue.HistoryGrows | src/util/msgq.cpp:142-228 | What was written and read at one state of a run is a prefix of what is at every later state, so the k-th message never changes. |
| MessageQueue.StepInv | src/util/msgq.cpp:142-228 | One step of any process, from any state in which the four semaphores agree with the processes in flight and the unread slots hold the unread messages, stays inside the block and leads to such a state. |
| MessageQueue.RunInv | src/util/msgq.cpp:84-95 | That holds at the end of every run from the initialized queue, with all tickets different. |
| MessageQueue.InHand | src/util/sem_sv.cpp:90-119 | A process that passed its first P sees fewer reads than writes (get), or fewer than nmsgs unread messages (put). |
| MessageQueue.Exclusion | src/util/msgq.cpp:142-228 | In every run: one reader and one writer at a time, every access inside the block, and a reader and a writer that copy at the same time do so in different slots. |
| MessageQueue.CopyReads | src/util/msgq.cpp:149-151 | The byte that the copy of a reader meets is the next byte of the oldest unread message or its NUL, which comes before the end of the slot. |
| MessageQueue.SemaphoresConserved | src/util/sem_sv.cpp:90-119 | Items, free slots and operations in flight add up to nmsgs in every state of every run. |
| MessageQueue.NoDeadlock | src/util/msgq.cpp:142-228 | When nobody can move, everybody is a get waiting on an empty queue or everybody is a put waiting on a full one; readers and writers are never blocked together. |
| MessageQueue.FullQueue | src/util/msgq.cpp:198-228 | A run of one process on a queue with one slot: its put returns 0 for what remains, with one message unread. |
| MessageQueue.NoEmptyMessage | src/util/msgq.cpp:177-183 | The branch of get for an empty message is never taken: the text copied is never empty and fits its slot. |
| MessageQueue.MessageLength | src/util/msgq.cpp:201-208 | The bounded loop finds the length of the text, or shows that it is at least a slot long. |
| GreyQueue.G.Select | src/crawler/cds.cpp:28-39 | Takes out a node of the largest degree; the map of the other nodes and the lists stay as they were. |
| GreyQueue.G.Put | src/crawler/cds.cpp:58-71 | Adds the node with its degree to the map of URLs to degrees, or refuses a URL that is there, changing nothing. |
| GreyQueue.G.Update | src/crawler/cds.cpp:73-107 | Changes the degree of one URL in unsigned arithmetic, drops it at 0, and touches no other; unknown URLs are reported. |
| GreyQueue.G.Clear | src/crawler/cds.cpp:41-56 | Empties the queue from any well-formed state. |
| GreyQueue.G.Chain | src/crawler/cds.cpp:109-120 | Puts a node on the list of its degree, lengthening the table; all lists stay well-formed doubly linked lists that hold exactly the nodes of their degree. |
| GreyQueue.G.Unchain | src/crawler/cds.cpp:122-132 | Takes a node off its list, first, middle or last; the lists hold exactly the other nodes. |
| GreyQueue.G.LowerMax | src/crawler/cds.cpp:34-35 | Walking down ends at the largest degree in use, or 0. |
| ConnectedDominatingSet.CdsAlgorithm.Cal | src/crawler/cds.cpp:195-216 | Ends for every finite link graph; the black nodes are connected from the root, each was a greedy choice, and a node is reachable from the root if and only if it is the root or an out-neighbour of a black node. |
| ConnectedDominatingSet.CdsAlgorithm.Greyen | src/crawler/cds.cpp:140-169 | Colours one white node: entries that name it as white go, entries for its uncoloured out-links come, and every queued degree again equals the number of entries that name its node. |
| ConnectedDominatingSet.CdsAlgorithm.Blacken | src/crawler/cds.cpp:171-184 | Colours exactly the out-neighbours of the node; either something is newly coloured or the queue is unchanged. |
| ConnectedDominatingSet.NamedIsPending | src/crawler/cds.cpp:152-163 | The number of entries that name a coloured node is the number of its pending out-links. |
| ConnectedDominatingSet.DegreeCounts | src/crawler/cds.cpp:152-167 | A queued degree is the number of out-link occurrences of the node that are not coloured, plus its links to itself; it is the former alone if and only if the node has no link to itself. |
| ConnectedDominatingSet.EraseKeeps | src/crawler/cds.cpp:145-151 | Erasing one entry and lowering the degree of the node it names keeps degrees and entries in agreement. |
| ConnectedDominatingSet.ColourKeeps | src/crawler/cds.cpp:145-162 | After a node is coloured, the entries are exactly one for each uncoloured out-link occurrence of each coloured node. |
| ConnectedDominatingSet.ColourBalance | src/crawler/cds.cpp:153-167 | Queueing the new grey node with the count of its entries, or not queueing it at 0, keeps degrees and entries in agreement. |
| ConnectedDominatingSet.ChoiceIsGreedy | src/crawler/cds.cpp:209-214 | The node of largest degree in the queue is, by the definition over the graph alone, a grey node with the most pending links. |
| ConnectedDominatingSet.ColouredReachable | src/crawler/cds.cpp:195-216 | Whatever is coloured is reachable from the root. |
| ConnectedDominatingSet.ClosedReach | src/crawler/cds.cpp:195-216 | A set that holds the root and is closed under links holds the end of every path from the root. |
| ConnectedDominatingSet.Done | src/crawler/cds.cpp:209-215 | With an empty queue, every reachable node is coloured. |
| LinePool.FifoHistory | src/util/LinePool.cpp:54-153 | For every sequence of pushes and pops, the lines taken followed by those left are the accepted lines in order; accepted and discarded pushes add up to all pushes. |
| LinePool.LinePool.PushALine | src/util/LinePool.cpp:54-90 | Refines a push onto the queue of strings: the line up to its first newline is added, across the end of the file if need be, without touching an unread byte, or counted as discarded when the pool is closed or would not keep 256 bytes free. |
| LinePool.LinePool.PopALine | src/util/LinePool.cpp:105-153 | Refines a pop: returns the oldest line if and only if it has fewer than 4095 characters and no NUL, also when it lies across the end of the file; an empty or closed pool is left alone. A longer line comes out as its first 4094 characters, or not at all exactly if fewer than 4095 bytes of it stand before the end of the file, and the next pop begins at the start of the data range. |
| LinePool.LongLine | src/util/LinePool.cpp:54-118 | A line of 4095 characters is accepted and is the oldest record, one that a pop does not return as it is. |
| LinePool.LinePool.constructor | src/util/LinePool.cpp:42-52 | A new pool is the empty queue. |
| LinePool.LinePool.GetFreeSpace | src/util/LinePool.cpp:281-291 | The free bytes are those of the data range that no unread record takes. |
| LinePool.LinePool.GetDataSize | src/util/LinePool.cpp:293-300 | The data size is the number of bytes of all unread records with their newlines. |
| LinePool.LinePool.CutAtNewline | src/util/LinePool.cpp:56-58 | The backward loop leaves the part before the first newline. |
| LinePool.LinePool.AppendSplit | src/util/LinePool.cpp:76-87 | A record in two pieces extends the data by exactly that record. |
| LinePool.LinePool.ReadRecord | src/util/LinePool.cpp:112-145 | One or two reads get the whole record, set the begin position just behind it and the count to 0 exactly when it was the last; a record that is too long is reported or shortened. |
| LinePool.WindowSplit | src/util/LinePool.cpp:76-87 | Two pieces written to the end and to the start of the range are, read around, the old data followed by both. |
| LinePool.LinePool.HeadInFile | src/util/LinePool.cpp:112-129 | Where the oldest record lies in the file: in one piece, or round the end. |
| IndexQueues.IndexQueue.PopFront | src/util/index_queue.hpp:19-29 | Takes the oldest entry out of list and index. |
| IndexQueues.IndexQueue.PushBack | src/util/index_queue.hpp:30-39 | Adds the entry last if and only if its key is not there. |
| IndexQueues.IndexQueue.Find | src/util/index_queue.hpp:46-61 | Finds the node and the value of a key exactly if the key is there. |
| IndexQueues.IndexQueue.Remove | src/util/index_queue.hpp:63-72 | Takes out the entry of a key and returns its value; the order of the others stays. |
| IndexQueues.IndexQueue.MoveToBack | src/commu/mcast.cpp:176-178 | Moves one node to the back of the list; the index still finds it. |
| IndexQueues.IndexQueue.Indexed | src/util/index_queue.hpp:15-72 | List and index agree in every state: no key is twice in the list, and the index has exactly the keys of the list with their values. |
| MulticastSession.DividesByZeroExactly | src/commu/mcast_session.cpp:40-49 | The statistics divide by zero if and only if they have started and are closed at the number at which they started. |
| MulticastSession.CloseSound | src/commu/mcast_session.cpp:26-71 | In a sound session, closing at any number above the last message does not divide by zero, gives a ratio from 0 to 100, and at the end of an interval starts again at a multiple of 1000 above all delivered messages. |
| MulticastSession.LossExact | src/commu/mcast_session.cpp:40-66 | In a sound session, the ratio reported when an interval is closed is the share, rounded down to a percent, of its numbers that were not delivered: 0 if all were, 100 exactly if none was. The interval ends with the closing number, or, from the next multiple of 1000 on, with the last multiple. |
| MulticastSession.RatioExactly | src/commu/mcast_session.cpp:40-49 | In any statistics that have started, closing at another number gives a ratio from 0 to 100 if and only if, going up, the messages counted exceed the numbers between by less than one percent of these, or, going down, they are less than one percent of these. |
| MulticastSession.RatioInRange | src/commu/mcast_session.cpp:47-49 | The truncated percentage of a part of a whole lies between 0 and 100. |
| MulticastSession.IncreasingSpan | src/commu/mcast_session.cpp:47-49 | Strictly increasing message numbers are at most as many as the numbers between the bounds, so no more messages are counted than an interval has. |
| MulticastSession.AssembleSound | src/commu/mcast_session.cpp:73-110 | On any fragment of a sender, lost, doubled or late, assemble does not throw; what it hands out is the message that was sent under that number, the numbers handed out increase, and the session stays sound. |
| MulticastSession.AssembleCounts | src/commu/mcast_session.cpp:103-109 | All bytes of the messages handed out are counted, and those of each message in the interval in which it is completed. |
| MulticastSession.InOrderDelivery | src/commu/mcast_session.cpp:73-110 | All fragments of a message in order, of any length, the empty one and multiples of 1024 included, hand it out if and only if the session is not already at its number. |
| MulticastSession.Session.Recalc | src/commu/mcast_session.cpp:26-71 | Fails exactly if the statistics have started at the closing number. In a sound session closed above its last message, reports the share of the numbers of its interval that were not delivered; the fields follow the specification function. |
| MulticastSession.Session.Assemble | src/commu/mcast_session.cpp:73-110 | Changes the session and returns a message, nothing or a failure as the specification function says. |
| Multicast.Sender.Send | src/commu/mcast.cpp:78-105 | The packets are the fragments of the message under the next number. |
| Multicast.FragmentsWhole | src/commu/mcast.cpp:87-103 | Fragments are numbered from 0, exactly the last is shorter than 1024 bytes, and joined they are the message. |
| Multicast.RunSound | src/commu/mcast.cpp:128-180 | For every sequence of packets that senders once sent, the receive loop neither throws nor divides by zero, every message handed out is one its sender sent under that number, every ratio reported is a percentage, and the buffer exceeds its limit by at most one session. |
| Multicast.ReceiveSound | src/commu/mcast.cpp:137-180 | One packet keeps all that, and within a session the numbers handed out strictly increase. |
| Multicast.EvictSound | src/commu/mcast.cpp:130-136 | Exactly the longest silent sessions above the limit leave, with sound reports. |
| Multicast.FedSound | src/commu/mcast.cpp:166-179 | Starting or ending an interval and then assembling keeps every session sound. |
| Multicast.ThrowsExactly | src/commu/mcast.cpp:156-165 | In any session whose reset is well defined, the throw of assemble is reached if and only if a fragment carries a number below -1; the reset catches all others. |
| Multicast.StaleGoodbye | src/commu/mcast.cpp:147-155 | An input for that: a sender had a life of 1000 messages, or any multiple; in its next life the first fragment of the message with that number arrives, then the goodbye of the earlier life. |
| MulticastRestarts.RunExactly | src/commu/mcast.cpp:128-180 | For any sequence of packets whose fragments carry numbers that are not negative, from senders that start again as often as they like: the receive loop fails if and only if some goodbye carries the number at which the interval of its session starts, and otherwise every ratio reported is a percentage if and only if every goodbye goes with what its session has counted. |
| MulticastRestarts.ReceiveExactly | src/commu/mcast.cpp:144-179 | One packet divides by zero if and only if it is a goodbye with the number at which the interval of its session starts; otherwise its report is wrong if and only if it is a goodbye at which the ratio leaves 0 to 100, and every session stays one whose interval holds its last message and whose count fits. |
| MulticastRestarts.TwiceLost | src/commu/mcast.cpp:147-155 | An input for that: after an earlier life of 999 messages, a short message 1000 of the next life arrives, then the late goodbye, and a loss of 200 percent is reported. |
| MulticastReports.RunTells | src/commu/mcast.cpp:128-180 | For every sequence of packets that senders once sent, the reports of each turn are those of the sessions dropped, oldest first, and then at most one for the packet: shutdown, reset or end of interval; each with the share of the numbers since the last report that were not delivered. |
| MulticastReports.ReceiveTells | src/commu/mcast.cpp:144-170 | When one packet is reported, as what, and with the loss of which interval. |
| MulticastReports.LongestSilentFirst | src/commu/mcast.cpp:130-179 | In every run, whoever sends, sessions stand in the order in which their senders last began a session or ended a message; so those dropped have been silent for longest. |
| Multicast.Sender.Close | src/commu/mcast.cpp:65-70 | A sender that has sent something says goodbye with the number of its messages; one that has not says nothing. |
| MulticastDelivery.Delivered | src/commu/mcast.cpp:128-180 | After any run of honest packets: when all fragments of a message arrive in order with nothing between them, the receive loop hands out exactly that message, at the last of them, if the session is not at its number when the first one comes, and nothing otherwise; a session that is further on is reset, and none is evicted on the way. |
| MulticastReceiver.Receiver.Recv | src/commu/mcast.cpp:128-180 | Reads arrivals until one completes a message; buffer, reports and all messages handed out so far are those of the specification over the whole sequence of arrivals, and it fails only where that fails. |
| MulticastReceiver.Receiver.Evict | src/commu/mcast.cpp:130-136 | Evicts as the specification does, session by session from the front. |
| MulticastReceiver.Receiver.Receive | src/commu/mcast.cpp:144-179 | Does with one packet what the specification does: goodbye, reset, statistics, assembly, move to the back. |
| Datagram.RoundTripExactly | src/commu/mcast.cpp:184-212 | For numbers of 31 bits, every fragment of a given length comes through unchanged if and only if header and fragment fit into 1044 bytes. |
| Datagram.WhatFitsComesThrough | src/commu/mcast.cpp:184-212 | A datagram that fits is read back with its numbers and its data, whatever bytes these are. |
| Datagram.SentLooksLike | src/commu/mcast.cpp:190-196 | An example of the bytes on the wire: three numbers with blanks between, a newline, the fragment. |
| Datagram.TruncatedIsWrong | src/commu/mcast.cpp:199-212 | For a header that does not fit there is a fragment that comes out different. |
| Datagram.LongHeader | src/commu/mcast.cpp:184-212 | The header of fragment 1000 of message 1000000000 has 21 bytes, and some full fragment with it comes out different. |
| Networks.ByteForByte | src/commu/mcast.cpp:184-212 | For every sequence of datagrams, of senders with up to a billion messages of less than ten million bytes, that the network loses, doubles or reorders: everything is read back, nothing throws or divides by zero, and every message handed out is byte for byte one that its sender sent under that number. |
| Decimal.PrintedThenScanned | src/commu/mcast.cpp:193-208 | A number that was printed is read back, and the reading stops at what follows it. |
| LineMessages.ParsedAsComposed | src/util/LineMessage.cpp:27-168 | The line of every composable message is understood as a message of the same kind with the cleaned fields and the same numbers. |
| LineMessages.LineClean | src/util/LineMessage.cpp:170-198 | A composed line holds no newline and no carriage return, is not empty, and comes apart at its tabs into the cleaned fields. |
| LineMessages.SplitJoin | src/util/LineMessage.cpp:80-178 | Fields without tabs that were joined come apart as they were. |
| LineMessages.TextsSpelled | src/util/LineMessage.cpp:201-346 | The words and fields of the lines for references, redirections, assignments and greetings, in their order. |
| LineMessages.NumbersSpelled | src/util/LineMessage.cpp:266-334 | Those of requests, loads, counts and group sizes. |
| LineMessages.LineMessage.CleanUrl | src/util/LineMessage.cpp:180-188 | The backward loop leaves the part before the first tab, carriage return or newline. |
| LineMessages.LineMessage.CleanText | src/util/LineMessage.cpp:190-198 | Every tab, carriage return and newline becomes a blank. |
| LineMessages.LineMessage.ComposeMsg | src/util/LineMessage.cpp:170-178 | The line is the fields joined by tabs. |
| LineMessages.LineMessage.ComposeHello | src/util/LineMessage.cpp:201-221 | Refuses a name that is empty or holds other characters than letters, digits and underscores; otherwise the object means the message. |
| LineMessages.LineMessage.ComposeRefer | src/util/LineMessage.cpp:241-252 | The line is that of the message, and the object means the message with cleaned fields. |
| LineMessages.LineMessage.ComposeRedirect | src/util/LineMessage.cpp:254-264 | Likewise for a redirection. |
| LineMessages.LineMessage.ComposeAssign | src/util/LineMessage.cpp:336-346 | Likewise for an assignment. |
| LineMessages.LineMessage.ComposeRequest | src/util/LineMessage.cpp:266-276 | Likewise for a request. |
| LineMessages.LineMessage.ComposeLoad | src/util/LineMessage.cpp:278-290 | Likewise for a load. |
| LineMessages.LineMessage.ComposeGroup | src/util/LineMessage.cpp:324-334 | The line is that of a GROUP message, but the object calls itself a LEFT message. |
| LineMessages.LineMessage.ParseMsg | src/util/LineMessage.cpp:80-168 | Drops a carriage return at the end, splits at every tab, empty fields included, and finds the kind. |
| LineMessages.LineMessage.SetMsgString | src/util/LineMessage.cpp:27-78 | After a line is set, the object means what the line means, unknown and incorrect lines included. |
| UltraServers.UltraServer.ReadSock | src/commu/UltraServer.cpp:108-141 | One read completes lines and leaves the rest as the specification says, for that socket alone; an empty read forgets the client. |
| UltraServers.CutAnywhere | src/commu/UltraServer.cpp:124-135 | Cutting a stream at any point makes no difference to the lines and to the rest. |
| UltraServers.LinesArrive | src/commu/UltraServer.cpp:108-141 | After any interleaving of reads of any sizes, the queued lines of a socket are those of its connections, one after the other, in order; of the last one the rest is kept, of those before it is forgotten. |
| UltraServers.WireLines | src/commu/UltraServer.cpp:143-156 | Lines written one after the other with newlines are, as a stream, exactly these lines. |
| UltraServers.MessagesArrive | src/commu/UltraServer.cpp:108-141 | Any sequence of composed messages, cut into any reads, arrives as the same sequence, behind what earlier connections on the socket sent: each line is understood as its message with cleaned fields, and a partial line is kept. |
| Merge.Merge | src/util/sort.hpp:25-60 | Ends for any streams; the output has for every key the sum of all its data, exactly the keys of the inputs, and is strictly increasing if and only if every input is. |
| Merge.ReadConserved | src/util/sort.hpp:41-50 | A read moves the data of its record from the input to the buffer and nowhere else. |
| Merge.ReadOrdered | src/util/sort.hpp:41-50 | After a read, the output so far is strictly increasing exactly if the part of the inputs read so far is. |
| Merge.WriteInv | src/util/sort.hpp:51-57 | Writing the least buffered key and waking the streams that gave it keeps the invariant: each stream is awake, ended, or waits at one key. |
| Merge.ReadInv | src/util/sort.hpp:41-50 | Reading a record from any awake stream keeps the invariant. |
| QueenBoxes.QueenBox.AddOutMessage | src/crawler/QueenData.cpp:74-78 | In any box, any line is accounted for and last in the list, which is then exchanged with the pool; a box in order that gets a URL message is in order afterwards if and only if the spill reaches no control message. |
| QueenBoxes.QueenBox.ExchangePool | src/crawler/QueenData.cpp:150-166 | In any box, above 10000 lines the last 500 go to the pool; below 1000, for a queen that is there, up to 500 pops bring lines back, as the pool gives them; otherwise nothing changes. A box in order stays so if and only if the spill reaches no control message. |
| QueenBoxes.ExchangedMeans | src/crawler/QueenData.cpp:150-166 | Which lines leave a list of more than 10000, which ones of a sound pool join one of fewer than 1000, and that in between, or without the queen, nothing changes. |
| QueenBoxes.SpillsWhole | src/crawler/QueenData.cpp:152-157 | Into a pool with room the tail of the list goes line by line, the last one first. |
| QueenBoxes.TooManyControls | src/crawler/QueenData.cpp:150-157 | A box in order with 9502 control messages and 499 URL messages, where a spill reaches the control messages. |
| QueenBoxes.QueenBox.SendMessage | src/crawler/QueenData.cpp:90-118 | In any box, up to the asked number of lines from the head go out in order, then the number of those left; URL messages among them are accounted as sent, and the rest of the list is exchanged with the pool; without a connection nothing happens. |
| QueenBoxes.ReplyMeans | src/crawler/QueenData.cpp:90-118 | The reply is the asked number of lines from the head, or all, and a LEFT message; the lines sent and the number in it add up to all lines in list and pool. |
| QueenBoxes.QueenBox.SaveMsgToPool | src/crawler/QueenData.cpp:168-200 | An open pool gets exactly the lines behind the control messages, in order, and every one it refuses is counted. |
| QueenBoxes.QueenBox.RedirectSite | src/crawler/QueenData.cpp:130-147 | A group member is told the owner of a site at the first reference and again after 200 more; the line goes behind the first control message or to the front. |
| QueenBoxes.ToldEvery | src/crawler/QueenData.cpp:130-147 | Of a new site, group members are told at the first reference and at every 201st one after it. |
| QueenBoxes.QueenBox.DeleteGroupMsg | src/crawler/QueenData.cpp:218-226 | Afterwards no GROUP message is among the control messages; nothing else is removed. |
| QueenBoxes.QueenBox.SendGroupMsg | src/crawler/QueenData.cpp:209-216 | The GROUP message is at the head, in place of an older one, and the rest of the list is as it was. |
| QueenBoxes.QueenBox.EnableFd | src/crawler/QueenData.cpp:43-49 | In any box, connects the queen, drops a GROUP message at the head and exchanges the list with the pool; a box in order stays so if and only if the spill reaches no control message. |
| QueenBoxes.QueenBox.DisableFd | src/crawler/QueenData.cpp:51-55 | Disconnects the queen; with an open pool the list is empty afterwards and no URL message is unaccounted for. |
| QueenBoxes.QueenBox.TakeSite | src/crawler/QueenData.h:38-53 | One more site; the queen counts as full until she asks again. |
| QueenBoxes.SpillOne | src/crawler/QueenData.cpp:153-156 | Spilling a URL message keeps every URL message put into the box in exactly one of list, pool, sent, refused and spoiled. |
| QueenBoxes.RefillOne | src/crawler/QueenData.cpp:158-164 | So does a pop: the message is in the list again, or spoiled, and then the line that came instead, if any, is counted as a stray one. |
| QueenBoxes.RefillsWhole | src/crawler/QueenData.cpp:158-164 | From a pool in which no line is too long, as many of the oldest lines as there are, up to 500, come back in their order. |
| QueenBoxes.NotAllKeepable | src/util/LinePool.cpp:105-153 | If the next pop of a box in order does not give back what was pushed, some message put into the box had 4095 characters or more, or a NUL. |
| QueenBoxes.InsertOne | src/crawler/QueenData.cpp:134-143 | So does inserting a control message behind the first one or in front, and exactly the first lines of the list stay control messages. |
| QueenBoxes.TakeAllSent | src/crawler/QueenData.cpp:93-107 | Of k lines that leave, exactly those behind the control messages are accounted as sent. |
| QueenBoxes.SaveAll | src/crawler/QueenData.cpp:174-184 | Saving a box keeps all accounts. |
| SpillPools.PushAllWhole | src/util/LinePool.cpp:54-90 | A pool with room takes all lines, in their order. |
| SpillPools.PushIntoFile | src/util/LinePool.cpp:54-90 | A push into the file does what a push into the pool does. |
| SpillPools.PopFromFile | src/util/LinePool.cpp:105-153 | So does a pop: the same line, the same records left, and for a line that is too long some reading that the pool allows. |
| SpillPools.PushIntoDamaged | src/util/LinePool.cpp:54-90 | After such a line, a push into the file is one that the pool allows, |
| SpillPools.PopFromDamaged | src/util/LinePool.cpp:105-153 | and every pop is, too. |
| Kings.King.Refer | src/crawler/king.cpp:225-252 | In any state, a URL message of a registered queen with a site, however long, is accepted, and goes to the buffer, which spills 500 messages exactly above 200000, or to the box of the owner of its site; the sender is told the owner when that is due, and the group its size when the time is up; any other message changes nothing but that. In every case each accepted message stays in exactly one place, and no queen has more than two control messages more. |
| Kings.King.PassMsgToQueen | src/crawler/king.cpp:426-440 | The message is handed to its owner, whose box may be new; all other accounts stay. |
| Kings.King.AssignSites | src/crawler/king.cpp:442-491 | Exactly when messages wait and some queen has room, one site without an owner goes to the best queen, for ever, with all its waiting messages; no other site changes its owner. |
| Kings.King.ChooseQueen | src/crawler/king.cpp:454-464 | Chooses a queen with the most free capacity, and of these one with the fewest sites; nobody exactly if nobody has room. |
| Kings.King.MoveMessages | src/crawler/king.cpp:482-488 | All messages of the site leave the buffer for the owner, one by one, each staying in exactly one place. |
| Kings.King.ExchangePool | src/crawler/king.cpp:606-646 | In any state, above 200000 waiting messages 500 go to the pool, which takes them all if it has room; below 1000 the buffer is refilled by up to 500 pops as the specification function says; from an open pool in which none is too long the oldest messages come back, those of sites without an owner to the buffer in order, the others to their owners; otherwise nothing changes. |
| Kings.King.TakeBack | src/crawler/king.cpp:620-642 | A message that comes back as it was goes to the buffer or to the owner of its site. A line that comes instead does so too if it looks like a URL message with a site, is dropped if only the site is missing, and ends the refill otherwise. Each message and each such line stays accounted for. |
| Kings.King.Request | src/crawler/king.cpp:253-268 | In any state, the queen gets the first lines of her box, as it was or with the news of her group, and the number of those left; at most one site finds an owner, and one does if messages wait and some queen has room; the end is declared if and only if no message waits and every connected queen has an empty list, has reported a positive load and last reported none; accounts and owners are kept. |
| Kings.King.FinishedMeans | src/crawler/king.cpp:309-317 | When the work counts as finished, every accepted message was handed to the owner of its site if the buffer never spilled; if it did, and every message has fewer than 4095 characters and no NUL, every one was handed over or refused by a full pool if and only if the king's pool is empty. |
| Kings.King.SentToOwner | src/crawler/king.cpp:309-317 | When the work counts as finished and the buffer never spilled, an accepted message has an owner, and was sent to her if she is connected and her box never spilled. |
| Kings.King.AllSent | src/crawler/king.cpp:309-317 | When it does, nothing ever spilled and all queens are connected, every accepted message was sent to the owner of its site, and nothing else was sent. |
| StrandedMessages.Stranded | src/crawler/king.cpp:225-317 | A whole run, for any URL message of a site: one queen refers to it 200501 times, asks, gets the site and leaves, a second one has nothing to do and asks, and the king declares the end with hundreds of messages in his pool. |
| StrandedMessages.Example | src/crawler/king.cpp:225-252 | If the address http://b.org/ has a site, there is a message for that run. |
| StrandedMessages.Accepted | src/crawler/king.cpp:225-252 | A run in which the king accepts a reference to a short URL by a link with a text of 5000 characters: it waits in the buffer, too long for a pool. |
| StrandedMessages.Spoiled | src/crawler/QueenData.cpp:43-55 | A run in which that message is put into the box of a queen, who leaves and comes back: afterwards it is neither in her list nor in her pool, though it was neither sent nor refused. |
| Kings.King.CheckGroup | src/crawler/king.cpp:709-742 | A group member who speaks is marked; when the time is up and more than one is marked, those that are get their number in 32 bits at the head of their lists, the others lose an older one, and the count is over; before that nothing changes. |
| Kings.GroupedMeans | src/crawler/king.cpp:725-740 | After the count, a member finds the size at the head of her list, no other news of a group is left among the control messages of anybody, and the rest of each list is as it was. |
| Kings.King.StartGroup | src/crawler/king.cpp:699-707 | All marks are cleared and the time is noted. |
| Kings.King.GroupAsked | src/crawler/king.cpp:218-220 | A GROUP message clears all marks and starts the count anew; nothing else changes. |
| Kings.King.Load | src/crawler/king.cpp:269-280 | In any state, the load of the queen and the most she has had are noted; all accounts are kept; at most one site finds an owner, and one does if messages wait and another queen has room. |
| Kings.King.Hello | src/crawler/king.cpp:211-219 | In any state, a queen, new or known, is connected: a new one with an empty list, a known one with her list exchanged with its pool and without old news of the group; the group is counted anew; no account and no owner changes. |
| Kings.King.Byebye | src/crawler/king.cpp:221-224 | The queen is disconnected and her list saved; the group is counted anew; no account and no owner changes. |
| Kings.King.SaveMsgToPool | src/crawler/king.cpp:648-666 | The whole buffer goes to an open pool, every message accounted for. |
| Realms.Wait | src/crawler/king.cpp:243-245 | Put into the buffer, a message of a site without an owner has its one place. |
| Realms.HandOver | src/crawler/king.cpp:248-249 | Handed to the owner of its site, it has its one place there. |
| Realms.PutIntoPool | src/crawler/king.cpp:608-614 | A spilled message is in the pool or counted as refused. |
| Realms.TakeFromPool | src/crawler/king.cpp:620-624 | A message that comes back from the pool as it was is the one that has to find a place. |
| Realms.SpoilFromPool | src/crawler/king.cpp:620-642 | If it does not, it is accounted for as spoiled, and some accepted message had 4095 characters or more, or a NUL. |
| Realms.Stray | src/crawler/king.cpp:622-638 | The line that came instead of it, if it looks like a URL message of a site, is then one that has to find a place. |
| Realms.Assigned | src/crawler/king.cpp:466-470 | A site without an owner can get one without misplacing a message that was handed out before. |
| Bitmaps.Bitmap.Val | src/util/bitmap.cpp:36-40 | For an index that passes the assertion, which compares with the size in 32 bits, reads one bit of the sequence of bits that the bytes are. |
| Bitmaps.Bitmap.Set | src/util/bitmap.cpp:42-47 | For such an index, sets one bit and no other, and returns its old value. |
| Bitmaps.Bitmap.Reset | src/util/bitmap.cpp:31-34 | Clears every bit. |
| MultiHash.MultiHashMD5.Slice | src/util/multi_hash.cpp:23-57 | The values are the consecutive fields of the digest, in 32 bits; an overflow if and only if they would take more than 128 bits. |
| MultiHash.MultiHashMD5.NextChunk | src/util/multi_hash.cpp:33-53 | The byte-wise loop gets the field that begins at a bit, of any width and across bytes, and stops just behind it. |
| MultiHash.MultiHashMD5.ValueMax | src/util/multi_hash.cpp:9-21 | Two to the power of the chunk size, less one; an overflow exactly above 32 bits. |
| MultiHash.ShiftedIsField | src/util/multi_hash.cpp:39-42 | The two shifts of a byte get exactly the bits from a place on, first bit highest. |
| MultiHash.FieldSplit | src/util/multi_hash.cpp:43-44 | A field is its first part shifted left, with its second part filled in. |
| MultiHash.ValuesBelow | src/util/multi_hash.cpp:23-57 | Up to 32 bits, each value is its field of the digest and below two to the power of the chunk size. |
| Shadows.BodySizeEndsExactly | src/util/shadow.cpp:62-74 | The doubling loop in 32 bits ends if and only if twice the capacity, in 32 bits, is at most 2 to the power of 31. |
| Shadows.NeverEnds | src/util/shadow.cpp:62-74 | For a capacity of one more than 2 to the power of 30 it does not. |
| Shadows.BodySize | src/util/shadow.cpp:62-74 | Where it ends, it gives the least power of two that is not below twice the capacity. |
| Shadows.BodyAgain | src/util/shadow.cpp:62-74 | A body asked for with half its own size as capacity is the same body. |
| Shadows.IndexChunk | src/util/shadow.cpp:27-40 | For a power of two, the number of bits that index eight times as many bits. |
| Shadows.Shadow.HalfEmpty | src/util/shadow.cpp:231-254 | In every state at most half of the bits of a shadow are set. |
| Shadows.Shadow.IndexesBelow | src/util/shadow.cpp:160-173 | Every index of every string stands for a bit; each passes the assertion of the bitmap if and only if the body is smaller than 2 to the power of 29 bytes. |
| Shadows.Shadow.TopIsUnusable | src/util/bitmap.h:20-23 | A shadow made for 2 to the power of 28 strings has a bitmap of size 0, and no index of any string passes the assertion. |
| Shadows.Shadow.Has | src/util/shadow.cpp:219-229 | In a shadow that can be used, true if and only if all bits of the string are set. |
| Shadows.Shadow.PutIt | src/util/shadow.cpp:231-254 | Refused exactly when the shadow is full; otherwise, in one that can be used, the string is held afterwards, no string that was held is lost, and the size grows exactly for one that was not held. |
| Shadows.Open | src/util/shadow.cpp:76-175 | A new shadow has the least body for its capacity, holds nothing and has indexes within its bits; a range error exactly when twice the capacity, in 32 bits, is above 2 to the power of 29; it can be used exactly if that is at most 2 to the power of 28, and has room for the capacity asked for exactly if that is below 2 to the power of 31. |
| ShadowChains.ShadowChain.Has | src/crawler/shadow_chain.cpp:81-90 | True if and only if some shadow of the chain holds the string. |
| ShadowChains.ShadowChain.Put | src/crawler/shadow_chain.cpp:92-115 | True if and only if the string was not remembered; it is afterwards, and nothing is forgotten. |
| ShadowChains.ShadowChain.MakeRoom | src/crawler/shadow_chain.cpp:97-113 | A full last shadow gets a successor eight times as large, up to a limit; the last shadow then has room and nothing else changes. |
| ShadowChains.ShadowChain.Size | src/crawler/shadow_chain.cpp:117-124 | The sum of the sizes. |
| Mosquitos.Mosquito.Run | src/crawler/mosquito.cpp:175-328 | Against any server the crawl ends, takes every page at most once, and unless the server is dead every page that was queued at the start, leaves no page in the queues then, puts each page taken back exactly once, but for the one at which a dead server is noticed, and makes at most 10 * npages tries for at most npages new or changed pages; at the end every page put back is active, overflown or discarded. |
| Mosquitos.Mosquito.GetTask | src/crawler/mosquito.cpp:153-173 | Takes the first of the blinking, else of the visited, else of the unvisited pages, which was never taken before and meets the assertions of the scheduler; fails exactly when all are empty. |
| Mosquitos.Mosquito.InQue | src/crawler/mosquito.cpp:450-476 | A new page joins the queue that the page at hand implies; a marked one found again on a visited page moves to the blinking ones; nothing else changes. |
| Mosquitos.Mosquito.Check | src/crawler/mosquito.cpp:707-728 | A link is new if and only if it leads to an allowed page of this host that was not remembered; then it is in no queue and was never taken. |
| Mosquitos.Mosquito.Collect | src/crawler/mosquito.cpp:491-505 | Exactly what one link does to queues and memory, for each combination of host, type, novelty and state of the page at hand. |
| Mosquitos.Mosquito.CollectURL | src/crawler/mosquito.cpp:478-508 | No page leaves the queues; as many join as are counted, in the queue that the page at hand implies; each that joins was linked and not remembered; every page linked is remembered. |
| Mosquitos.Mosquito.Parse | src/crawler/mosquito.cpp:511-592 | The queues grow by the pages counted as new; texts count as new exactly if they were not remembered. |
| Mosquitos.Mosquito.LoadTask | src/crawler/mosquito.cpp:108-138 | A task is queued by its status unless robots.txt, an earlier task of the same page, its status, or, for an imported one, the memory forbids it. |
| Mosquitos.Mosquito.LoadEnv | src/crawler/mosquito.cpp:108-138 | Every allowed live task of the host, unless imported, is queued, once by address, and remembered; every page queued comes from an allowed live task; imported ones were not remembered. |
| Mosquitos.Mosquito.Fetch | src/crawler/mosquito.cpp:331-400 | A first failure of all is a dead server, a third one in a row an unwilling one. |
| Mosquitos.TreatedFate | src/crawler/mosquito.cpp:208-318 | A page that is gone, or answered for in any way but with the page, a redirection or an error, is dropped in this turn; after an error or no answer it is kept unless it got stale. |
| Mosquitos.Mosquito.Visit | src/crawler/mosquito.cpp:208-318 | A task that is not ready, or in a crawl that has had enough, only waits a turn longer; otherwise it is fetched once, and task, queues, counters and server state change as the reply demands; only ready live tasks are rescheduled. |
| Mosquitos.Mosquito.Turn | src/crawler/mosquito.cpp:193-325 | The task goes to exactly one list of the next turn, never to none; limits on tries and pages are kept. |
| Mosquitos.PopOnce | src/crawler/mosquito.cpp:153-173 | Taking the first page keeps the queues disjoint and apart from the pages taken. |
| Mosquitos.PushOnce | src/crawler/mosquito.cpp:450-462 | So does queueing a page that is in no queue and was not taken. |
| Mosquitos.MoveOnce | src/crawler/mosquito.cpp:464-474 | So does moving a page to the blinking ones; the set of queued pages stays. |
| Mosquitos.SpreadOn | src/crawler/mosquito.cpp:482-506 | What links do to queues and memory adds up over the links. |
| Tasks.Task.Reschedule | src/crawler/task.cpp:24-58 | Wait, status and counters change as the specification function says, for each kind of reply. |
| Tasks.FirstFetch | src/crawler/task.cpp:31-41 | At its first fetch a page gets stale exactly if it has no new text, and otherwise comes again within four turns. |
| Tasks.ChangedSooner | src/crawler/task.cpp:43-48 | The next wait of a changed page is the longest that is no longer than the last one and no longer than half of the turns waited. |
| Tasks.NewsHalve | src/crawler/task.cpp:43-48 | In every history, each change found on the turn at which a task gets ready halves its wait, and after six it is 0. |
| Tasks.NewsAddUp | src/crawler/task.cpp:30 | In every history, the sum of new contents is that of all visits. |
| Tasks.Task.FadeOut | src/crawler/task.cpp:60-70 | Stale above 32, otherwise a longer wait, in 16 bits. |
| Tasks.WaitIsBounded | src/crawler/task.cpp:8-70 | In every history in which only ready live tasks are visited, a visited live task never waits for more than 32 turns. |
| Tasks.SevenVisits | src/crawler/task.cpp:24-70 | Seven visits in a row that bring nothing new, failures and unchanged pages in any mix with any pauses, make a visited task stale, and there is no eighth. |
| Tasks.TenFailures | src/crawler/task.cpp:24-70 | A page that was never fetched is stale after its tenth failure at the latest. |
| Tasks.NineAreNotEnough | src/crawler/task.cpp:24-70 | Nine failures are not enough. |
| Tasks.ShiftTurn | src/crawler/envhost.cpp:268-289 | All tasks move on by the least number of turns that leaves one of them ready, and no task becomes less ready. |
| TaskStream.LostExactly | src/crawler/task_stream.cpp:5-34 | A task goes to no list if and only if it is not discarded, was visited, is so no more, and is not blinking before and after. |
| TaskStream.FateMeans | src/crawler/task_stream.cpp:19-33 | For each list, what its tasks were and have become, without the order of the tests. |
| TaskStream.NeverLost | src/crawler/task_stream.cpp:5-34 | After any history of visits, pauses and marks, a task goes to some list. |
| TaskStream.ActiveTaskFile.Put | src/crawler/task_stream.cpp:5-34 | The task joins the one list of its fate with the matching counter, and every task put so far is in exactly one place. |
| TaskStream.ActiveTaskFile.CollectAll | src/crawler/task_stream.cpp:60-69 | The active tasks are the first of the five lists in their order, as many as there are places; the others overflow, and are counted by list. |
| TaskStream.ActiveTaskFile.Close | src/crawler/task_stream.cpp:56-77 | Every task put is active, overflown or discarded, and the counters tell how many of which kind. |
| Escapes.Correct | src/url/url.cpp:134-174 | The index loop computes the corrected text. |
| Escapes.CorrectedOnce | src/url/url.cpp:134-174 | In a corrected text every percent sign starts an escape of two digits, and correcting it again changes nothing. |
| Escapes.CorrectedMeans | src/url/url.cpp:134-174 | Decoded, the corrected text is the decoded original up to its first NUL, with slashes for backslashes. |
| Escapes.CorrectedInGrammar | src/url/url.cpp:134-174 | A corrected text has only the characters of section 2 of RFC 2396, proper escapes, and one number sign at most. |
| Escapes.NormalizeEscaped | src/url/uri.l:406-448 | The rewriting in place computes the normal form, in which a decoded character is not looked at again. |
| Escapes.NormedOnce | src/url/uri.l:406-448 | A text with proper escapes keeps its decoded bytes, keeps its escapes proper, and is normal after one pass. |
| Escapes.MeaningKeptExactly | src/url/uri.l:406-448 | Any text keeps its decoded bytes if and only if no stray percent sign stands before two hexadecimal digits of which one is escaped. |
| Escapes.TwoPasses | src/url/uri.l:406-448 | An input for that, which two passes turn into the letter A. |
| Uris.NormalizePath | src/url/uri.l:303-339 | The iterator pass over the list computes what the definition with a stack says. |
| Uris.PathOnce | src/url/uri.l:303-339 | For absolute paths no self or parent segment is left, an empty one only in last place, the path is not empty, and a second pass changes nothing. |
| Uris.ParentCancels | src/url/uri.l:322-335 | A name and the parent segment behind it vanish together if and only if something follows them or no self segment stands just before them. |
| UriMeanings.SelfVanishes | src/url/uri.l:311-321 | A self segment that is not last leaves no trace. |
| UriMeanings.SelfAtEnd | src/url/uri.l:311-321 | One that is last makes the path end with a slash. |
| UriMeanings.ParentOfRoot | src/url/uri.l:322-335 | A path does not lead above its root. |
| Uris.Uri.Normalize | src/url/uri.l:275-345 | Case, escapes, path and port are normalized in this order, part by part. |
| UriMeanings.NormalizedMeans | src/url/uri.l:275-345 | Each part of the normal form stands for the same bytes as the same part before, scheme and host in lower case, the path before dots are taken out; a missing port is that of the scheme. |
| UriMeanings.NormedNeeded | src/url/uri.l:406-448 | Every escape that is left stands for a character that needs one, and has upper-case digits. |
| Uris.NameOnceExactly | src/url/uri.l:278-287 | Any text with proper escapes is normal after one pass as a host if and only if no escape in it stands for a capital letter. |
| Uris.NormalizedOnceExactly | src/url/uri.l:275-345 | Parts with proper escapes, of an absolute or a relative address, are normal after one pass if and only if that holds for host and scheme. |
| Uris.NormalizedOnce | src/url/uri.l:275-345 | What the tokenizer finds in a corrected address, absolute or relative, is normal after one pass: its hosts and schemes hold no escapes. |
| Uris.Uri.Link | src/url/url.cpp:37-46 | A reference is normalized, resolved against the address of its page, and normalized again. |
| Uris.LinkedNormal | src/url/url.cpp:37-46 | On a page with a rooted path, the result is normal, its path is not empty, and plain unless the reference has a scheme or host and then a relative path; a reference without a path leads to the root. |
| Uris.LinkNormalExactly | src/crawler/mosquito.cpp:486-489 | A link as the crawl resolves it, normalized before and not again, is normal if and only if it has a scheme; or has a host and does not leave its port to the scheme of the page; or has neither, and its path is rooted or free of self and parent segments and of empty ones before its end. |
| Uris.TwoAddresses | src/crawler/mosquito.cpp:486-489 | A run: on the page /d/p, the link a/../b becomes /d/a/../b, whose normal form is /d/b. |
| Uris.Uri.ToAbs | src/url/uri.l:467-491 | Where each part comes from: a reference with a scheme stays as it is, one with a host gets the scheme of its page, any other also the host, and user and port unless it has them; the page's path without a path of its own, and for a relative path all segments of the page but the last, then its own with a slash in front. |
| Uris.ResolvedExactly | src/url/uri.l:467-491 | That relation, element by element, has exactly one result. |
| Uris.MergedPath | src/url/uri.l:480-489 | The text of the path of a relative reference is that of the page up to its last slash and then its own, as in section 5.2.3 of RFC 3986. |
| Uris.AbsolutePath | src/url/uri.l:467-491 | A reference without scheme and host gets a path of rooted segments, so the path pass makes it plain. |

## Left out

* Sockets, select, DNS, HTTP, HTML, robots.txt, cookies, MySQL, Berkeley DB, configuration, logging and command lines: foreign calls and plumbing. A read is an arbitrary chunk of bytes, a fetch an arbitrary reply, a file an array of bytes.
* Message queue: semaphore operations that fail and processes that die inside a call; `put` of a `std::string`, which drops its `remain` argument; the 30 second pause in the branch that is proved dead.
* Memory order: steps of different processes interleave, as on one processor.
* Connected dominating set: colours that stay from an earlier `cal`, and the false positives of the filter that holds them; a page with an empty address, which the original asserts not to meet.
* Line pool: keeping the header in the file over a restart, pairs of name and value.
* Multicast: wrap-around of message numbers and byte counts, speed figures, a buffer limit that changes or was never set. Eviction is done when a packet arrives, before it is looked at.
* Multicast.RunSound: every sender numbers its messages once. For one that starts again, `MulticastRestarts.RunExactly` says when the loop fails and when its ratios are right, not which messages come out.
* Line messages: ASK, ANSWER, BYEBYE and EXIT lines are parsed by kind only; the functions that read fields back are one function, `Meaning`.
* King: which site is taken next and which 500 messages are spilled is left open, so what is proved holds for every order of the site map; files of site owners, restart with full pools, seeds, numbers of messages received. Nothing starts a count of the group before the first HELLO, BYEBYE or GROUP message. A branch for a site that has an owner while messages for it wait is proved dead, and so is not part of the method.
* King and queens: a spill pool is the queue of lines that `LinePool` is proved to refine (`SpillPools.PopFromFile`), until a line is popped that is too long for its buffer. From then on the model leaves open what each pop gives, whether a push finds room and when the count falls to 0; it also does so after the pool was empty again, when the original is sound once more. The count of references to a site is passed to `RedirectSite` and returned.
* Merge: keys are integers, standing for any type with a total order.
* Shadows: mapped files, headers and files from earlier runs; MD5 is any function to 16 bytes. Shadows.Shadow.constructor takes a body of matching size; a capacity of 0, which is refused with a file, is not. ShadowChains.ShadowChain.constructor takes a first shadow that can be used.
* Crawl: counters are kept in sums (tries, pages got), not by kind of page; links to other hosts are noted only in the memory. The test for the right type of a link at src/crawler/mosquito.cpp:491 is `!r&right_type`, which never skips a link, and is modelled as such.
* Tasks: 16-bit wrap-around of `waited`; reading and writing tasks as text.
* Addresses: the tokenizer. `-` and `.` are not decoded, unlike section 6.2.2.2 of RFC 3986, and a parent segment at the end leaves no final slash, unlike section 5.2.4 of RFC 3986; both as in the code.
* `CRefresher`, `RConfig`, `hostports`, the indexer and HTML item handling: easier members of the same kinds.
