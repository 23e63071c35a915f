# Verification of libToxTun's connection protocol and packet reassembly

libToxTun connects two machines over Tox: both ends negotiate an unused 192.168.x.0/24 subnet over
ordered, reliable control packets, then exchange tun frames over lossy, reorderable packets, cut into
fragments where a frame is too large. This project models that logic in Dafny and proves what its
users rely on.

## Parts

- `Packets`, `Fragmentation`, `JoinTheorems`: byte packets; cutting a packet into fragments and
  joining fragments (Data.cpp). The loops are methods over buffers, proved against functions.
- `Reassembly`: the receiver's fragment store with its 8-bit indices and eviction, nested packets,
  when a set is corrupt, and why fragments cut from frames of at most 256 fragments can never act as
  control packets. `Oversize`: what comes of larger frames, and that the bound is exact.
- `ReorderedStream`: an unbounded stream of split packets over a lossy, reordering link, refined to an
  ideal receiver that keeps whole packet numbers. `EndlessStream` states the conditions on the link for
  all time, `LinkConditions` shows why they are needed.
- `Tun`: the check whether a subnet is in use.
- `Endpoint`: one end as a state machine: packets, user calls, destructor goodbyes, events. `Reactions`: what
  an end owes its user and its friend in every state: events, the state shown, goodbyes, what is ignored.
- `Protocol`, `Agreement`: two ends, two FIFO control channels and lossy traffic; inductive invariants
  over channel contents, and what they give for every run.
- `Quiescence`, `Negotiation`: a measure that bounds all traffic; the subnet a negotiation finds.
- `Callers`, `CallCondition`: whether an end shown as ringing has a caller; the exact condition on what
  is under way when a user requests. `Crossing`: when two requests leave both ends waiting.
- `Callbacks`, `CleanSession`: the grammar of events; sessions in which no "unexpected" branch runs.
- `Runs`, `Quirks`: concrete runs that mark the edges of the results.
- `Layout`: the bytes of every control packet and fragment, and on which of tox's channels they go.
- `Wire`, `BytePair`: the same pair on real bytes with fragment stores, shown to refine `Protocol`, and
  the exact step on which a corrupt set ends the program.
- `Accounts`, `Delivery`: the byte-level pair with an account of every frame and fragment of both
  directions; on a link that keeps its conditions the program never ends on a corrupt set and no
  frame is handed over twice. `LeftOvers`: a run that shows what the conditions guard against.
- `Settlement`: `Quiescence` on real bytes.
- `ManyFriends`: the core as a map of links, shown to be independent machines. `Network`: any number of
  cores with any number of friends, of which every two are a pair.
- `Connections`, `Core`: the objects `Connection` and `ToxTunCore` with their fields updated in place;
  each method does exactly what the functions above say.

The main results are about every run, of any length and over any number of sessions:

1. No half-open connection: if no goodbye packet was lost and the control channels are empty, one end
   is connected only together with the other, in opposite roles and on one subnet
   (`Agreement.ConnectedTogether`, on bytes `BytePair.BytesConnectedTogether`, between any two nodes
   of a network of cores `Network.AnyTwoConnectedTogether`). Other sends may fail.
   The hypothesis is needed (`Quirks.LostGoodbyeStrands`).
   An end that rings has a caller, and a caller a ringing friend, exactly if every request is sent
   when `Callers.MayCall` holds (`CallCondition.MayCallExact`).
2. Whatever sends fail, two connected ends agree on the subnet once the responder has read everything
   (`Agreement.SubnetsAgree`).
3. Control traffic dies out from every state, and then, with no goodbye lost, nobody is stuck half way
   (`Quiescence.EverySessionSettles`, on bytes `Settlement.BytesSettle`).
4. An undisturbed negotiation ends on the least subnet known to be in use on neither machine, address
   queries that fail included, or with both connections deleted (`Negotiation.NegotiationFindsLeast`,
   `Negotiation.LeastUnusedSubnet`).
5. Under bounded reordering every packet is delivered whole and exactly once, if and only if all its
   fragments arrive, and no set is ever corrupt (`ReorderedStream.StreamReassembles`,
   `ReorderedStream.DeliveredExactlyOnce`, for endless streams with `EndlessStream.PrefixAdmissible`).
6. End to end, over any number of sessions in both directions, on a link that keeps its conditions: no
   corrupt set ends the program, and each tun device gets exactly the frames forwarded at the other
   end of which one connection received every fragment without being ended by it, that is, was
   connected when the last one arrived; each once (`Delivery.FramesEndToEnd`).
7. Every session that ends reports exactly one terminal event, unless the own user hung up while it was ringing
   or connected (`Callbacks.EndedExactly`, for every run `Callbacks.EventsFollowGrammar`), and hanging up ends
   both ends from every state, unless the goodbye is lost (`Agreement.HangUpAlwaysEnds`).

The link's conditions in 5 and 6: no duplicates; no fragment of packet q arrives after one of packet q+126
or later; before a fragment of packet k+254 or later arrives, one of packets k+126, k+127, k+128 has
arrived whole, if anything of packet k has arrived; frames have at most 255 fragments. In 6 in addition:
when a connection sends its first fragments, none of an earlier one is under way or kept at the other end.

## Model

| member | source | states |
|---|---|---|
| Fragmentation.GetSplitted | src/Data.cpp:158-187 | the list of fragments is the packet's split, last piece first, with header, set index, number byte and count byte in place |
| Fragmentation.CutPieces | src/Data.cpp:163-182 | the cutting loop yields each piece exactly once, newest in front |
| Fragmentation.CopyInOrder | src/Data.cpp:50-60 | the loop succeeds exactly when position i holds number i and no payload is empty, and then the buffer starts with all payloads in order and is otherwise unchanged |
| Fragmentation.JoinFragments | src/Data.cpp:38-65 | summing lengths, sorting, checking and copying computes the join, or reports a corrupt set |
| JoinTheorems.SplitConservesAndFits | src/Data.cpp:158-187 | a packet gives ceil(len/(MAX-4)) fragments, none empty, none above MAX, all but the last full, payloads in order equal to the packet, same index and count in all |
| JoinTheorems.JoinExact | src/Data.cpp:44-58 | joining succeeds if and only if no payload is empty and the n number bytes are a permutation of 0..n-1 |
| JoinTheorems.JoinConcatenates | src/Data.cpp:50-64 | the result of a join is the concatenation of the payloads in number order |
| JoinTheorems.JoinIgnoresOrder | src/Data.cpp:44-48 | fragments joined in any order of arrival give the same outcome |
| JoinTheorems.SplitJoinRoundTrip | src/Data.cpp:158-187 | every rearrangement of a packet's fragments joins to exactly that packet when there are at most 256, and is corrupt otherwise |
| Reassembly.CompletionPays | src/Connection.cpp:423-430 | completing a set of n fragments lowers stored bytes plus the packet in hand by at least 4n, which ends the mutual recursion of handleData and handleFragment |
| Reassembly.UnwrapConserves | src/Connection.cpp:73-107 | for every packet and store, including nested fragments, what is stored plus what comes out is never more than what went in |
| Reassembly.HonestStaysData | src/Connection.cpp:411-434 | if all fragments were cut from Data packets of at most 256 fragments, whatever is reassembled has header Data, even from mixed sets |
| Reassembly.HonestUnwrap | src/Connection.cpp:100-106 | the same for handling a packet as a whole: such fragments end as nothing, as Data, or as a corrupt set |
| Reassembly.CrashExactly | src/Data.cpp:50-58 | handling a packet ends the program exactly when it is a fragment that completes a list whose numbers are no permutation or that has an empty payload, or that completes a good set whose joined packet does so in turn |
| Reassembly.HonestCrashExactly | src/Connection.cpp:423-430 | for fragments cut from Data packets of at most 256 fragments the first case is the only one |
| Reassembly.LargeNeverJoins | src/Data.cpp:184 | no set of fragments that fit the link, its own among them, is ever joined to a packet of more than 255 fragments, whose count byte wraps |
| Reassembly.LargePacketsNeverArrive | src/Connection.cpp:100-106 | nor does it come out of handling a fragment as a whole, nested or not, when all fragments were cut from Data packets of at most 256 fragments |
| Oversize.EndOfFrameArrives | src/Data.cpp:163-184 | what the fragments of a frame of any size yield in the order in which they are sent: unless their number is a multiple of 256, as many as the count byte says are joined to the end of the frame, all of it up to 255, otherwise what follows the last multiple of 256 pieces |
| Oversize.CountZeroNeverCompletes | src/Connection.cpp:423 | the fragments of a frame of a multiple of 256 fragments have count byte 0 and never complete a set |
| Oversize.LargerFramesMix | src/Data.cpp:175 | the bound of 256 is exact: the 257th fragment of any larger frame has number 0, and the byte at its place in the frame becomes the header of a joined packet |
| ReorderedStream.CounterWraps | src/Connection.cpp:344-349 | the k-th split packet of a connection is sent under set index k mod 256 |
| ReorderedStream.StreamReassembles | src/Connection.cpp:411-434 | under the link conditions each arrival delivers exactly the packet it completes, or is stored; nothing else is delivered and no set is corrupt |
| ReorderedStream.DeliveredExactlyOnce | src/Connection.cpp:411-434 | a packet is delivered if and only if all its fragments arrive, and at one arrival only |
| EndlessStream.PrefixAdmissible | src/Connection.cpp:427-428 | an endless stream without duplicates, with bounded reordering and one whole packet among any three consecutive ones meets the link conditions at every moment |
| ReorderedStream.ReceiverHandsOver | src/Connection.cpp:323-331 | a connected receiver hands exactly the completed packet to the tun device and does nothing else outside |
| ReorderedStream.EvictionHarmless | src/Connection.cpp:427-428 | a list evicted by a completion is the unfinished set of a packet 126 to 128 behind, of which no fragment arrives any more |
| ReorderedStream.GoneBeforeReuse | src/Connection.cpp:427-428 | when packet k+254 or any later one sends a fragment that arrives, hence before k+256 reuses its index, every list in the store is the unfinished set of a packet other than k |
| LinkConditions.WithoutEvictionSetsMix | src/Connection.cpp:416-430 | without a completion in between, a left-over of packet k and a fragment of packet k+256 are joined to a packet nobody sent |
| LinkConditions.DuplicateCorrupts | src/Connection.cpp:416-430 | a duplicated fragment of a two-fragment packet is a corrupt set |
| LinkConditions.LeftOverEndsProgram | src/Connection.cpp:416-430 | a fragment of a two-fragment frame kept by an open connection, and the equally numbered one of any two-fragment frame under the same index as a new connection at the other end sends it, end the program |
| LeftOvers.FreshLinksAreNotEnough | src/Connection.cpp:411-430 | that happens although no goodbye is lost, no lossy packet is under way whenever a connection comes up, and all lossy packets arrive in the order sent: a connection keeps fragments in every state, and the other end's next connection starts at index 0 again |
| Tun.IsAddrspaceUnused | src/Tun.cpp:131-148 | true if and only if no address in the list lies in 192.168.x |
| Tun.FreeExactly | src/Connection.cpp:225-232 | a check lets a subnet pass unless the query for it succeeds and lists an address in it; a failed query counts as unused |
| Endpoint.NextFree | src/Connection.cpp:296-313 | the search returns the least subnet above the previous one that the check lets pass, or 256 |
| Endpoint.ProposalsRise | src/Connection.cpp:276-321 | every proposal is the least locally unused subnet above the previous one, never 256, with postfix 2 |
| Endpoint.ReactKeepsShape | src/Connection.cpp:73-107 | every packet keeps role, state, subnet and address consistent, so the 8-bit narrowings lose nothing; at most one packet is sent |
| Endpoint.CallKeepsShape | src/ToxTunCore.cpp:123-157 | the same for every user call |
| Reactions.ShownInEveryRun | src/Connection.cpp:436-456 | at every moment of every run, at both ends: Disconnected if and only if there is no connection, Connected if and only if an address is set, FriendIsRinging if and only if a responder has none yet, RingingAtFriend if and only if an initiator has none yet |
| Reactions.ComesUpExactly | src/ToxTunCore.cpp:67-133 | a connection comes up if and only if a request arrives or is sent and a tun device opens for it; an arriving one is reported, and what else a stranger sends is answered by Reset, but for a Reset |
| Reactions.PacketsReportedExactly | src/Connection.cpp:132-207 | a packet that ends a connection is reported by exactly one event, Rejected if it rejects the own request and Closed otherwise; getting connected is the only other thing reported |
| Reactions.HangUpReported | src/Connection.cpp:41-57 | closing, rejecting, or accepting what is not a pending request sends Reject, Close or Reset by state and reports nothing if the session was ringing or connected, Closed otherwise |
| Reactions.AcceptReported | src/Connection.cpp:388-404 | accepting a pending request starts the negotiation; if the acceptance cannot be sent, a Reset goes out and Closed is reported |
| Reactions.SecondRequestIgnored | src/ToxTunCore.cpp:123-126 | a user's request on an open connection changes nothing |
| Reactions.ResetsExactly | src/Connection.cpp:155-327 | an open connection is given up with a Reset if and only if a packet has no place in its state, its answer cannot be sent, or no subnet is left to propose |
| Reactions.IgnoredExactly | src/Connection.cpp:73-107 | an open connection is left as it is exactly by a second request, a packet that is neither payload nor control, payload when connected, and a proposal of the wrong size where a proposal is expected |
| Reactions.ProposalAnswered | src/Connection.cpp:225-250 | a proposal is accepted if and only if the local check lets its subnet pass, and then the proposed address is taken |
| Protocol.TrackedKept | src/Connection.cpp:155-321 | every step of either end, even with failing sends, keeps the newest unread packet of a proposing end equal to its current proposal and a reader's address equal to it |
| Protocol.FullyBackedKept | src/Connection.cpp:41-57 | every step without a lost goodbye keeps each waiting end answered for by a packet under way or by the other end's state |
| Agreement.NewestPacketIsProposal | src/Connection.cpp:315-320 | in every run, whatever sends fail, the last control packet ever sent by an initiator in ExpectingIpConfirmation or Connected, read or not, is the proposal of its current subnet; for both ends |
| Agreement.SentIsReadOrUnderWay | src/Connection.cpp:353-371 | the record of what an end has sent is that of its lossless channel: in every run it is, in order, what the other end has read and then what is still under way |
| Agreement.SubnetsAgree | src/Connection.cpp:209-284 | in every run, whatever sends fail, connected initiator and responder agree on the subnet once the responder has read everything |
| Agreement.ConnectedTogether | src/Connection.cpp:41-57 | in every run without a lost goodbye and with no control packet under way, one end connected implies both are, in opposite roles on one subnet with addresses 1 and 2 |
| Agreement.DrainedIsSettled | src/ToxTunCore.cpp:61-78 | in such a state no end is left in a negotiation and no request is left without an end that has a connection |
| Agreement.ShownStatesMatch | src/Connection.cpp:436-456 | in such a state both users are shown connected or neither, and an end shown as ringing at the friend has a friend shown as ringing or as calling too; the converse holds only under the condition of Callers |
| Callers.CarefulCallsFit | src/Connection.cpp:436-456 | if every request was sent when MayCall held, then in such a state one end is shown FriendIsRinging if and only if the other is shown RingingAtFriend |
| CallCondition.MayCallExact | src/ToxTunCore.cpp:123-133 | the condition is exact: after any careful run, a request sent next keeps this so in every drained state of every careful continuation if and only if MayCall holds: either something under way from the friend makes the caller speak again, or nothing is under way from it, no lossy packet to it, and it takes what control is under way silently and ends idle |
| CallCondition.CallerAnswers | src/Connection.cpp:155-207 | what makes a new caller speak again: any packet other than Request and Reset, except a Reject that only Requests precede |
| Crossing.CrossedRequestsStall | src/Connection.cpp:75-78 | when users only request and all packets get read, both ends are left waiting for an answer if and only if at some moment both requests were under way at once |
| Crossing.BothAskingHaveCrossed | src/Connection.cpp:75-78 | in every run without a lost goodbye that has drained, both ends are left asking if and only if at some moment both were asking with both requests unread and they have gone on asking since |
| Agreement.HangUpReachesPeer | src/Connection.cpp:41-57 | hanging up a settled pair, also by accepting what is not a pending request, sends one goodbye, Close, Reject or Reset by state, which ends the other side without a reply and reports there rejected or closed; the own user is told Closed exactly if it gave up its own request |
| Agreement.HangUpAlwaysEnds | src/ToxTunCore.cpp:135-157 | in every state of the pair and whatever is under way, a hang-up whose goodbye is sent ends the own end at once and the other end when it has read what is under way to it |
| Agreement.GoodbyeDecides | src/Connection.cpp:59-71 | when one of two connected ends hangs up, also by accepting, it is idle at once, and the pair settles again if and only if its goodbye could be sent |
| Quiescence.ReadingPays | src/Connection.cpp:199-207 | reading a control packet always costs more than the reaction puts back, in any state |
| Quiescence.TrafficDiesOut | src/ToxTunCore.cpp:67-77 | from every state, whatever fails, the number of deliveries without new calls or payload is bounded by a measure |
| Quiescence.EverySessionSettles | src/Connection.cpp:41-57 | after any run, deliveries end within the bound, and with no goodbye lost the pair is then connected together or not at all |
| Settlement.BytesSettle | src/Connection.cpp:41-57 | the same on real packets: after any byte-level run deliveries end within the bound, as long as control packets are under way one can be read without ending the program, and with no goodbye lost the drained pair is settled |
| Settlement.LinkSettles | src/Connection.cpp:41-57 | on a link that keeps its conditions, of every run of the byte-level pair |
| Negotiation.AcceptedReached | src/Connection.cpp:388-404 | a request and its acceptance lead from the idle pair to the start of the negotiation |
| Negotiation.NegotiationFindsLeast | src/Connection.cpp:209-321 | an undisturbed negotiation, in any order of reading, ends with both connected on the least common free subnet, or both deleted if there is none |
| Negotiation.LeastUnusedSubnet | README.md:7 | the same in terms of what the two operating systems answer, for any mix of lists and failed queries: the least subnet known to be in use on neither machine, .1 and .2 |
| Negotiation.NoAnswersMeetAtZero | src/Connection.cpp:302-307 | when all address queries fail on both machines, the pair ends connected on 192.168.0.x |
| Negotiation.ProposalsMade | src/Connection.cpp:296-321 | in every undisturbed negotiation, in any order of reading, the proposals made are, in ascending order, exactly the initiator's free subnets up to the one agreed on, at most 256 |
| Callbacks.EventsFollowGrammar | src/ToxTun.hpp:53-58 | for any inputs, each session's events are Requested iff responder, at most one Accepted, at most one terminal event with nothing after it, Rejected only for an initiator without Accepted; an open session has reported exactly the word of its state, an ended one exactly its final word |
| Callbacks.EndedExactly | src/Connection.cpp:41-57 | the final word of an ended session holds exactly one terminal event, or none if its own user hung up while it was ringing or connected; Rejected if and only if the friend rejected the own request; Accepted if and only if it ended from Connected; Closed after Accepted only if a packet ended it |
| Callbacks.PairFollowsGrammar | src/ToxTunCore.cpp:177-181 | in every run of the pair the events of each session at each of the two ends are those words, for the state that end is in |
| CleanSession.CleanNeverTrips | src/Connection.cpp:155-181 | in a clean session no unexpected branch is taken and at most one control packet is under way |
| CleanSession.OvertakingPayloadTrips | src/Connection.cpp:323-327 | payload ends a clean session if and only if it overtakes the IpAccept |
| CleanSession.InitiatorPayloadNeverTrips | src/Connection.cpp:323-327 | payload towards the responder never trips a clean session |
| Quirks.LostGoodbyeStrands | src/Connection.cpp:66-71 | one lost Close leaves the peer connected to nobody with nothing under way |
| Quirks.RingingWithoutCaller | src/Connection.cpp:167-181 | two causes of an end that rings for nobody with no goodbye lost: a rejection that crosses the caller's second request, and payload of a finished session that reaches the idle friend before a new request; both requests violate MayCall |
| Quirks.RequestsReachEveryState | src/Connection.cpp:75-78 | in runs without a lost goodbye an end reads a Request in a state if and only if its role can be in that state at all: every state but Deleting |
| Wire.ControlRoundTrip | src/Data.cpp:79-93 | every control packet, encoded and dispatched on its header, is itself again |
| Layout.ControlBytes | src/Data.hpp:40-51 | the bytes of every control packet |
| Layout.ReadExactly | src/Connection.cpp:73-107 | which packets are read as which: a control packet by its first byte alone, a proposal by its first byte and exactly three bytes, payload by its first byte |
| Layout.ChannelsByHeader | src/Data.cpp:189-199 | control packets go on tox's lossless channel, frames and fragments on the lossy one |
| Layout.FragmentBytes | src/Data.cpp:158-187 | how many fragments a packet has and every byte of each: 201, set index, number and count modulo 256, then its stretch of the packet |
| Layout.ShortFragmentDropped | src/Data.cpp:201-221 | a fragment of less than four bytes is dropped and changes nothing |
| Layout.EmptyFragmentKept | src/Data.cpp:50-58 | a fragment without payload is kept like any other, but completes only corrupt sets |
| BytePair.StepRefines | src/Connection.cpp:73-107 | every byte-level step on honest packets is a step of the protocol and keeps all packets honest |
| BytePair.EndsExactly | src/Connection.cpp:423-430 | a step ends the program exactly when it hands an open connection a fragment that completes a corrupt set |
| BytePair.RunRefines | src/Connection.cpp:73-107 | every byte-level run, until a corrupt set ends the program, is a run of the protocol with the same environment |
| BytePair.BytesConnectedTogether | src/ToxTunCore.cpp:61-78 | no half-open connection on real packets, as long as no corrupt set has ended the program |
| Delivery.FramesEndToEnd | src/Connection.cpp:109-124 | on a link that keeps its conditions every byte-level run goes on, over any number of sessions: no corrupt set; in both directions the frames given to the tun device are exactly those forwarded frames of which one single connection of the receiver got every piece without being ended by it, that is, was connected when the last piece arrived; none twice |
| Delivery.LossyArrives | src/Connection.cpp:323-331 | every arrival gives the tun device exactly the frame that arrived alone or was completed, and only when connected |
| Delivery.LinkKeepsTogether | src/ToxTunCore.cpp:61-78 | on such a link, with no goodbye lost and the control channels drained, there is no half-open connection, without any assumption on stores and fragments |
| ManyFriends.FriendsIndependent | src/ToxTunCore.cpp:61-171 | any run of the core, projected to one friend, is that friend's machine run on its own turns with the same packets, events and frames |
| ManyFriends.EndsWithSomeFriend | src/Connection.cpp:423-430 | the program ends on a corrupt set if and only if the machine of some friend, run alone on that friend's own turns, does |
| Network.RunProjects | src/ToxTunCore.cpp:61-171 | any run of a network of cores is, for two nodes whose programs go on, a run of the pair on their own steps, whatever all others do |
| Network.AnyTwoConnectedTogether | src/ToxTunCore.cpp:61-78 | between any two nodes of the network, with their control channels drained and none of their goodbyes to each other lost, there is no half-open connection and no end in a negotiation |
| Connections.Connection.constructor | src/Connection.cpp:25-39 | an initiator's object exists only if its request was sent; a responder's sends nothing |
| Connections.Connection.SendToTox | src/Connection.cpp:337-386 | the packet or its fragments go to tox in list order until one is refused; the set index advances only on a split and wraps from 255 to 0 |
| Connections.Connection.ResetAndDeleteConnection | src/Connection.cpp:132-144 | Reset is sent unless sending fails, one Closed is reported in either case, the connection is gone |
| Connections.Connection.Destroy | src/Connection.cpp:41-57 | the goodbye is that of the state; nothing is reported when ringing, connected or deleting, one Closed in the three other states |
| Connections.Connection.SearchSubnet | src/Connection.cpp:296-313 | the loop leaves subnet at the least one above that is not known to be in use, or at 256; a failed query counts as unused |
| Connections.Connection.ProposeIp | src/Connection.cpp:296-321 | proposes the subnet found, or resets and deletes when none is left or sending fails |
| Connections.Connection.SetOwnIp | src/Connection.cpp:253-274 | address set, state Connected, Accepted reported |
| Connections.Connection.HandleConnectionAccepted | src/Connection.cpp:155-165 | starts negotiating when the own request is pending, otherwise resets and deletes; new fields, packets and events are exactly the state machine's |
| Connections.Connection.HandleConnectionRejected | src/Connection.cpp:167-181 | reports Rejected and deletes silently when the own request is pending, otherwise resets and deletes |
| Connections.Connection.HandleConnectionClosed | src/Connection.cpp:183-197 | reports Closed and deletes silently when connected, otherwise resets and deletes |
| Connections.Connection.HandleConnectionReset | src/Connection.cpp:199-207 | reports Closed and deletes without a reply, so that resets are not bounced |
| Connections.Connection.HandleIpProposal | src/Connection.cpp:209-251 | accepts a subnet not known to be in use and takes the proposed address, refuses one known to be used and stays; wrong size ignored where a proposal is expected, a failed address query counts as unused, a failed send deletes, anything unexpected resets |
| Connections.Connection.HandleIpAccepted | src/Connection.cpp:276-284 | the initiator takes address 1 of the subnet it proposed last and is connected; unexpected otherwise |
| Connections.Connection.HandleIpRejected | src/Connection.cpp:286-294 | the initiator goes on to its next free subnet; unexpected otherwise |
| Connections.Connection.SendToTun | src/Connection.cpp:323-331 | Data reaches the tun device only when connected, otherwise the connection is reset |
| Connections.Connection.HandleData | src/Connection.cpp:73-107 | dispatch and nested fragments do what the byte-level link says, terminating, or the set is corrupt |
| Connections.Connection.StoreFragment | src/Connection.cpp:414-429 | listing, completion test, erasing and the eviction loop leave exactly the specified store |
| Connections.Connection.HandleFragment | src/Connection.cpp:411-434 | as for HandleData, for fragments |
| Connections.Connection.AcceptConnection | src/Connection.cpp:388-404 | accepts a pending request of the friend, or resets and deletes when sending fails; in any other state it fails and changes nothing |
| Connections.Connection.ForwardFrame | src/Connection.cpp:109-124 | a connected end sends one frame, others send nothing |
| Core.ToxTunCore.HandleData | src/ToxTunCore.cpp:61-78 | the packet moves its friend's link and no other, strangers get Reset unless they sent Reset or a request |
| Core.ToxTunCore.HandleStranger | src/ToxTunCore.cpp:67-77 | a packet from a friend without a connection: a request, an ignored Reset, or a Reset in reply |
| Core.ToxTunCore.HandleConnectionRequest | src/ToxTunCore.cpp:96-121 | a new ringing connection and one event, or a Reset when no tun device opens |
| Core.ToxTunCore.SendConnectionRequest | src/ToxTunCore.cpp:123-133 | succeeds exactly when there is no connection yet, the tun device opens and the request is sent |
| Core.ToxTunCore.AcceptConnection | src/ToxTunCore.cpp:135-146 | accepts a ringing connection; in any other state it fails, the connection is destroyed with its goodbye and no entry is left |
| Core.ToxTunCore.Erase | src/ToxTunCore.cpp:167-171 | erasing an entry runs its destructor: goodbye and event by state, no other friend touched |
| Core.ToxTunCore.RejectConnection | src/ToxTunCore.cpp:148-152 | erases the entry, which sends the goodbye of its state |
| Core.ToxTunCore.CloseConnection | src/ToxTunCore.cpp:154-157 | erases the entry, which runs the destructor with its goodbye and event, and leaves other friends alone |
| Core.ToxTunCore.EraseDeleted | src/ToxTunCore.cpp:167-171 | erasing a connection that deleted itself changes no link |
| Core.ToxTunCore.GetConnectionState | src/ToxTunCore.cpp:159-165 | what the user is shown: Disconnected without a connection, Connected with an address, otherwise ringing on the side the role says |
| Core.ToxTunCore.Forward | src/ToxTunCore.cpp:85-94 | one connection's turn in iterate, leaving other friends alone |

## Reading the code

Where comments and code disagree the model follows the code:

- The comment on a ConnectionRequest for an open connection says that the branch is never reached
  (src/Connection.cpp:76). It is reached in every state an end can be in, with no goodbye lost
  (`Quirks.RequestsReachEveryState`); it leaves both ends waiting when both requests were under way at
  once (`Crossing.CrossedRequestsStall`, `Crossing.BothAskingHaveCrossed`).
- `handleFragment` is noexcept but calls `fromFragments`, which throws on a bad set; reading byte 4 of
  an empty payload throws as well. Both end the program: outcome `Broken` of a set, `Crashed` of a link.
- After `resetAndDeleteConnection` the object is gone; the statements that follow it at
  src/Connection.cpp:241 and src/Connection.cpp:328-330 are taken as not executed.
- `acceptConnection` in a wrong state throws, and the core reacts by destroying the connection. Exceptions
  are results: false for a call that throws.

Inputs from outside are parameters: the operating system's address lists (a failed query counts as
unused), whether sends succeed, whether a tun device opens, which packets arrive. TOX_MAX_CUSTOM_PACKET_SIZE
is a constant of which only `MAX > 4` is known. The role and the address given to the tun device are
recorded beside the source's own fields. A connection that deletes itself is erased from the map when
its handler returns.

## Left out

- Platform tun devices (src/TunUnix.cpp, src/TunWin.cpp): ioctls and overlapped I/O; a device is an address and a log of frames.
- The filter for packets of the own tox instance (src/Tun.cpp:48-129): ad hoc header checks.
- Timing in iterate: one frame sent while connected is a step of its own.
- The C wrapper, the factory, logging and exception texts.
- A missing user callback, and a callback that calls back into the library.
- Malformed control packets in the two-party results: there both ends run this code; single-end results allow any packet.
- BytePair.RunRefines: frames of more than 256 fragments are left out of the byte-level pair (the tun device delivers at most 1518 bytes at a time, src/TunUnix.cpp:190), because fragments of larger ones can be joined to packets with any header (`Oversize.LargerFramesMix`); the run is followed until a corrupt set ends the program (`BytePair.EndsExactly`), which `Delivery.FramesEndToEnd` excludes on a link that keeps its conditions.
- Delivery.FramesEndToEnd: the condition that nothing of an earlier connection is left when a connection sends its first fragments is sufficient; that it cannot be weakened to fresh links is shown for two-fragment frames (`LeftOvers.FreshLinksAreNotEnough`).
- Different subnets for different friends: two negotiations at the same time may pick the same one.
- Payload of a failed send: packets tox refuses are not retried, as in the source.
