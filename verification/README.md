# Lattix, modelled and proved

Lattix is an end-to-end encrypted messenger: a browser client and a relay that stores ciphertext.
This project models four of its cores in Dafny and proves what they are meant to guarantee. The main
results are for all inputs, all runs or all reachable states; where the code does less than it
promises, there is the exact condition under which it keeps the promise, and an input that breaks it.

**The QR encoder** (`Numbers`, `Bytes`, `Gf256`, `ReedSolomon`, `Powers`, `Distance`, `Interleave`,
`Tables`, `Segment`, `Bch`, `Grids`, `Placement`, `Layout`, `FreeModules`, `Patterns`, `Masks`,
`Format`, `Penalty`, `Symbol`, `QrCode`).
`QrEncoder.EncodeText` is the whole encoder: loops, arrays and a symbol object updated in place. Its
contract says that the smallest version that fits is chosen, that the first mask of least penalty is
applied, and that a reader who only sees the modules recovers exactly the bytes. The reader
(`Symbol.ReadSymbol`) is an independent definition: format bits, mask off, zigzag, de-interleaving,
segment. The error correction is proved to be a Reed-Solomon code from the field laws up, for any
degree, and to determine the data from damaged codewords; the block split and the walk are proved for
any block structure and any layout. Penalty scores are defined on run-length encodings, and the scan
with its seven-run history computes them.

**The relay** (`RelayStore`, `RelayInvariants`, `RelayTheorems`, `RelayEffects`, `Relay`, `RateLimiter`,
`LikeSearch`). `RelayStore` says what each endpoint call and each sweep does to the tables, including
its refusals; the class `Relay.Relay` does it step by step, is proved equal, and keeps the invariants.
`RelayEffects` says what users see of a call: who gets a message and who does not, and what stays.
`RelayInvariants` carries the invariants that the schema does not declare through every run. One
endpoint call or one sweep is one atomic step here.

**Trust and history in the client** (`Trust`, `Paging`). Key pinning, alerts and the gate on sending,
against a relay that may serve any key at any time; and history paging against a store that changes
between the pages.

**Connection, requests and envelopes** (`Connection`, `ConnectionEffects`, `Api`, `Request`,
`Transcript`, `Envelope`). The socket with its generations, retry timer and single-flight re-login as
an event-driven machine, and as the object whose handlers run it; which events lead to what; the
request loop, and why a request is sent again; the signed byte strings and what they
determine; and encryption and decryption of messages and files over any primitives that undo each
other.

`Options` holds the option and result types. The sources are JavaScript and Python; what they change
in place is a class or an array here, and every such method is proved against a function whose
properties the lemmas state.

## Where the code does less than its comments say

- A version-2 file transcript is said to be shared by no two payloads (client/js/crypto.js:162-163).
  This holds for payloads to the same parties if the nonces, the hash and the wrapped keys of both
  have their fixed sizes, which readers do not check: `Transcript.FileTranscriptInjective` is the exact
  statement, and `Transcript.ReshapedTranscript` gives a pair for the same parties. For different
  parties, `Transcript.SharedTranscripts` gives the exact condition on two lists of names under which
  payloads of fixed sizes share one, and `Transcript.BobAndAbob` a pair.
- A context is said to bind a message signature to its conversation
  (client/js/crypto.js:112-114). Transcripts of two contexts are apart exactly when neither is a
  prefix of the other (`Transcript.MessageContextsApart`): for any two groups with ids of one length,
  but not for the empty context of 1:1 chats against a group's. As for files, the fields are then
  determined when those of both messages have their fixed sizes
  (`Transcript.MessageTranscriptInjective`).
- The connection gets stuck when the session comes back to a client that wants a socket and has
  nothing pending for it, as after a logout that ended while the socket was wanted again
  (`Connection.ReconnectingDuringLogout`). `Connection.NeverStuck` says that nothing else does it.
- The alert of a mismatched link is said to stay until the user deals with it
  (client/js/app.js:1077-1078). Over a verified pin it does not (`Trust.LinkAlertCleared`);
  `Trust.LinkAlertLasts` is the exact condition on a run.
- The verify dialog pins the code it showed even if another key has been cached since
  (`Trust.ConfirmingAnotherKey`). `Trust.SentOnlyToPinnedKeys` says that verified contacts are safe
  exactly when every confirmed code was still current.

## Model

| member | source | states |
|---|---|---|
| `Gf256.MulAssociates` | client/js/qr.js:68-75 | Multiplication of codewords, as polynomials modulo 0x11d, is associative |
| `Gf256.MulCommutes` | client/js/qr.js:68-75 | Multiplication of codewords is commutative |
| `Gf256.MulAddRight` | client/js/qr.js:68-75 | Multiplication distributes over exclusive or in its second factor |
| `Gf256.MulAddLeft` | client/js/qr.js:68-75 | Multiplication distributes over exclusive or in its first factor |
| `Gf256.MulOne` | client/js/qr.js:68-75 | 1 is neutral for multiplication |
| `Gf256.Multiply` | client/js/qr.js:68-75 | the eight rounds of shift, reduce and add compute that product |
| `ReedSolomon.ComputeDivisor` | client/js/qr.js:43-55 | the double loop in place over the coefficient array leaves the generator coefficients without the leading one |
| `ReedSolomon.GeneratorIsRootProduct` | client/js/qr.js:43-55 | for every degree, leading one and coefficients together evaluate, at every point, to the product of (x - 2^i) for i below the degree |
| `ReedSolomon.ComputeRemainder` | client/js/qr.js:56-67 | the shift register in place computes the remainder function, for any data and divisor |
| `ReedSolomon.RemainderDivides` | client/js/qr.js:56-67 | the register is polynomial division: at every point, data times x^degree equals quotient times divisor plus remainder |
| `ReedSolomon.CodewordVanishesAtRoots` | client/js/qr.js:43-67 | for every data and every degree, data followed by its check symbols evaluates to 0 at 2^0 ... 2^(degree-1) |
| `Powers.NotOneBefore` | client/js/qr.js:43-75 | for an element of order 255 such as 2, no smaller positive power is 1 |
| `Powers.AlphaIsFull` | client/js/qr.js:68-75 | 2 has that order: its 255th power is 1, its 15th, 51st and 85th are not |
| `Powers.ElementIsPower` | client/js/qr.js:68-75 | every codeword but 0 is one of the first 255 powers of such an element |
| `Powers.NoZeroDivisors` | client/js/qr.js:68-75 | a product is 0 only if a factor is |
| `Distance.TermsExceedRoots` | client/js/qr.js:43-67 | a polynomial of at most 255 coefficients that vanishes at the first d powers of 2, and is not 0, has more than d terms |
| `Distance.MinimumDistance` | client/js/qr.js:43-67 | blocks for different data of one length, of at most 255 codewords, differ in more places than there are check symbols |
| `Distance.ErrorsCorrectable` | client/js/qr.js:43-67 | a received block within half the number of check symbols of the blocks for two data sequences belongs to equal data |
| `Distance.SymbolErrorsCorrectable` | client/js/qr.js:185-214 | in every version and level, damaged codewords determine the data as long as no block has more errors than half its check symbols |
| `Distance.NoErrors` | client/js/qr.js:185-214 | the codewords made for data have no errors with respect to it |
| `Interleave.Totals` | client/js/qr.js:185-214 | for any block structure the blocks use all data codewords, and data and check symbols fill the raw codeword count, as do the rows without pad cells |
| `Interleave.PosInjective` | client/js/qr.js:205-212 | no two codewords of the blocks go to one place of the interleaved sequence |
| `Interleave.PosSurjective` | client/js/qr.js:205-212 | every place of the interleaved sequence gets a codeword, so every pad cell is skipped |
| `Interleave.PosOrdered` | client/js/qr.js:205-212 | codewords are taken by their place in the block first, and by the block second |
| `Interleave.DataCodewordAt` | client/js/qr.js:193-212 | where each data codeword stands: the blocks take the data in order, the short ones first and the long ones one codeword more |
| `Interleave.EccCodewordAt` | client/js/qr.js:193-212 | where each check symbol of each block stands |
| `Interleave.MakeBlock` | client/js/qr.js:196-202 | one block: data, the pad cell when the block is short, and its check symbols |
| `Interleave.MakeBlocks` | client/js/qr.js:193-203 | each block gets its own slice of the data, in order, with nothing left over |
| `Interleave.AddEccAndInterleave` | client/js/qr.js:185-214 | for any block count, check length and raw size that fit, the two loops produce the interleaved codewords of that structure |
| `Interleave.DeinterleaveInterleaved` | client/js/qr.js:185-214 | de-interleaving gives back the data codewords |
| `Interleave.RecoveredBlocksAreCodewords` | client/js/qr.js:185-214 | data and check symbols read back from the interleaved sequence form, block by block, Reed-Solomon codewords |
| `Tables.TableFits` | client/js/qr.js:13-24 | every entry of the two tables leaves room for data: check symbols per block times blocks stay within the raw codewords |
| `Tables.KnownCapacities` | client/js/qr.js:13-40 | data codewords of versions 1, 10 and 40 at every level, as the standard prints them |
| `Segment.FindVersion` | client/js/qr.js:344-351 | the search returns the smallest version the bytes fit, and none exactly when no version does |
| `Segment.CountFits` | client/js/qr.js:348-355 | the length of a byte string that fits a version can be written in that version's count field |
| `Segment.Append` | client/js/qr.js:353-353 | appends the given number of bits, most significant first |
| `Segment.BuildBits` | client/js/qr.js:352-361 | header, data, terminator, byte boundary and alternating pad bytes fill the capacity exactly |
| `Segment.PackBits` | client/js/qr.js:363-364 | the shift-and-or loop packs eight bits to a codeword |
| `Segment.BuildCodewords` | client/js/qr.js:352-364 | bit stream and packing together give the data codewords |
| `Segment.SegmentRoundTrip` | client/js/qr.js:341-364 | for every byte string that fits, parsing mode, count and bytes from the data codewords gives the bytes back |
| `Segment.CodewordBit` | client/js/qr.js:352-364 | what each bit of the data codewords is: mode 0100, count, bytes, and four zeros, each most significant first |
| `Segment.PadCodeword` | client/js/qr.js:359-361 | the codewords after them are 236 and 17 in turn |
| `Segment.FitsBytes` | client/js/qr.js:344-351 | a version fits as many bytes as it has data codewords, less two, or three from version 10 on |
| `Bch.Encode` | client/js/qr.js:133-152 | the shift-register loops of the format and version bits compute one function of data, degree and generator |
| `Bch.CodeIsMultiple` | client/js/qr.js:133-152 | every such code word is a carry-less multiple of its generator and begins with the data |
| `Bch.CodeOfOne` | client/js/qr.js:133-152 | the code word of 1 is the generator |
| `Format.FormatReadBack` | client/js/qr.js:133-146 | level and mask are read back from any symbol with its format area drawn |
| `Format.FormatCells` | client/js/qr.js:138-146 | which module shows which format bit, in both copies, and the dark module |
| `Format.LevelNumbers` | client/js/qr.js:133-137 | the two bits of each level, in front of the three of the mask |
| `Format.FirstFormatCode` | client/js/qr.js:133-137 | level M under mask 0 is drawn as 0x5412 |
| `Format.SecondFormatCode` | client/js/qr.js:133-137 | under mask 1 the generator 0x537 is added to that |
| `Format.FirstVersionCode` | client/js/qr.js:148-152 | the version bits of 1 are the generator 0x1f25 |
| `Placement.WalkIsComplete` | client/js/qr.js:216-232 | on every grid of side 4v + 17 the zigzag visits each module outside column 6 exactly once |
| `Placement.WalkZigzags` | client/js/qr.js:216-232 | the walk starts in the lower right corner, takes the two modules of a row from right to left, and goes to a neighbouring row of the same strip, or along the edge into the next strip to the left, past column 6 |
| `Placement.DataCellsAreTheFreeModules` | client/js/qr.js:216-232 | for any reserved layout, the modules that take data are exactly the free ones outside column 6, each once |
| `Placement.ReadPlaced` | client/js/qr.js:216-232 | reading in walk order gives back the placed bits, whatever the layout, if there are no more bits than free modules |
| `Layout.AlignInside` | client/js/qr.js:326-333 | alignment patterns lie inside the symbol in every version |
| `Layout.AlignApart` | client/js/qr.js:326-333 | rows of alignment patterns are at least 12 modules apart, so no pattern is drawn over another |
| `Layout.StandardLines` | client/js/qr.js:326-333 | the lines of alignment patterns are those of the standard's table: 6, the listed second line, and equal steps up to 7 from the edge |
| `FreeModules.CoverIsReserved` | client/js/qr.js:112-183 | a disjoint union of rectangles covers the function modules and nothing else |
| `FreeModules.FreeModuleCount` | client/js/qr.js:28-36 | in every version exactly as many modules carry data as the closed form says |
| `Patterns.FunctionModuleKept` | client/js/qr.js:216-251 | neither codewords nor masks change a function module outside the format area |
| `Patterns.FinishedShowsPatterns` | client/js/qr.js:112-183 | every function module of a finished symbol has its prescribed colour |
| `Patterns.PatternsDetermined` | client/js/qr.js:112-183 | version and level determine the function patterns and the light modules around them |
| `Patterns.FindersShown` | client/js/qr.js:162-172 | the three finders and their borders are the familiar picture, row by row |
| `Patterns.AlignmentShown` | client/js/qr.js:173-179 | so is every alignment pattern |
| `Patterns.VersionShown` | client/js/qr.js:148-160 | where both copies of each version bit stand |
| `Patterns.TimingShown` | client/js/qr.js:113-116 | between the finders the timing patterns alternate, dark at even coordinates |
| `Masks.MaskTwice` | client/js/qr.js:234-251 | applying a mask twice restores every module |
| `Masks.StripeMasks` | client/js/qr.js:234-251 | masks 0 to 2 are a checkerboard, every other row and every third column |
| `Masks.DiagonalMask` | client/js/qr.js:234-251 | mask 3 inverts every third diagonal |
| `Masks.BlockMask` | client/js/qr.js:234-251 | mask 4 is a checkerboard of blocks three wide and two high |
| `Masks.ProductMasks` | client/js/qr.js:234-251 | masks 5 to 7 by the residue of the product of the coordinates |
| `Symbol.TrialUndone` | client/js/qr.js:94-100 | mask, format bits and mask again leave the data layer as it was |
| `Symbol.PlanUnique` | client/js/qr.js:186-191 | only one block structure has the table's numbers and fills the symbol |
| `Symbol.BlocksAreShort` | client/js/qr.js:13-40 | in every version and level a block has at most 254 codewords, within the length for which the code keeps its distance |
| `Symbol.DataCodewordCount` | client/js/qr.js:37-40 | that structure carries exactly the data codewords the capacity formula promises |
| `Symbol.DataReadBack` | client/js/qr.js:78-106 | any data codewords are read back from the modules alone, whichever mask was applied |
| `Symbol.DataModule` | client/js/qr.js:216-251 | the k-th data module of a finished symbol shows bit k of the codewords, most significant first, inverted where the mask says so |
| `Symbol.SymbolReadBack` | client/js/qr.js:341-367 | end to end: a reader of the finished modules gets exactly the bytes |
| `Penalty.ExpandRuns` | client/js/qr.js:257-273 | the run lengths a score is defined on expand to the line they encode |
| `Penalty.RunsMaximal` | client/js/qr.js:257-273 | No run but a first, light one is empty, so the runs are maximal |
| `Penalty.ScanLine` | client/js/qr.js:257-273 | the scan with a seven-entry history computes the declarative line score on the runs padded with light borders |
| `Penalty.CountBlocks` | client/js/qr.js:291-299 | 3 for each uniform 2x2 block |
| `Penalty.GetPenaltyScore` | client/js/qr.js:253-307 | rows, columns, blocks and balance add up to the declarative score of the grid |
| `Penalty.BalanceNonnegative` | client/js/qr.js:300-305 | on an odd side the balance term is never negative, and its steps bracket the deviation from one half |
| `Penalty.RunScores3` | client/js/qr.js:257-273 | runs shorter than five score nothing, five score 3, and each further module 1 |
| `Penalty.FinderLike` | client/js/qr.js:309-324 | runs in the proportion 1:1:3:1:1 with a margin of four units on one side and one on the other count, twice with four on both |
| `Penalty.NotFinderLike` | client/js/qr.js:309-324 | other proportions do not count |
| `Penalty.SinglePattern` | client/js/qr.js:274-289 | a pattern that counts costs 40 |
| `Penalty.LightGridScore` | client/js/qr.js:253-307 | the score of a light grid in closed form: rows and columns, squares, and ten times the nine steps of imbalance |
| `QrEncoder.QrCode.SetFunctionModule` | client/js/qr.js:180-183 | colours one module and reserves it, and changes nothing else |
| `QrEncoder.QrCode.DrawTiming` | client/js/qr.js:113-116 | reserves row and column 6 with alternating colours |
| `QrEncoder.QrCode.DrawFinderPattern` | client/js/qr.js:162-172 | reserves the clipped 9x9 square with light rings at distance 2 and 4 |
| `QrEncoder.QrCode.DrawAlignmentPattern` | client/js/qr.js:173-179 | reserves a 5x5 square with a light ring at distance 1 |
| `QrEncoder.QrCode.GetAlignmentPatternPositions` | client/js/qr.js:326-333 | the splicing loop yields 6 and then equally spaced coordinates that end 7 from the edge |
| `QrEncoder.QrCode.DrawAlignmentPatterns` | client/js/qr.js:120-128 | reserves and colours exactly the patterns off the three finder corners |
| `QrEncoder.QrCode.DrawFormatBits` | client/js/qr.js:133-146 | draws both copies of the format bits and the dark module, and nothing else |
| `QrEncoder.QrCode.DrawVersion` | client/js/qr.js:148-160 | draws both copies of the version bits from version 7 on |
| `QrEncoder.QrCode.DrawFunctionPatterns` | client/js/qr.js:112-131 | the reserved modules are exactly those of the version, each with its prescribed colour |
| `QrEncoder.QrCode.DrawCodewords` | client/js/qr.js:216-232 | the three nested loops place the bits one by one into the free modules in walk order |
| `QrEncoder.QrCode.ApplyMask` | client/js/qr.js:234-251 | inverts exactly the free modules the mask selects |
| `QrEncoder.QrCode.ChooseMask` | client/js/qr.js:92-101 | the trial loop returns the first mask of least penalty and leaves the data layer unchanged |
| `QrEncoder.QrCode.TryMask` | client/js/qr.js:95-99 | one trial scores the symbol under its mask and undoes it |
| `QrEncoder.QrCode.constructor` | client/js/qr.js:78-106 | the final modules are the codeword layer under the first best of eight masks, with its format bits |
| `QrEncoder.QrCode.GetModule` | client/js/qr.js:108-110 | a module of the symbol, light outside it |
| `QrEncoder.SymbolDetermined` | client/js/qr.js:341-367 | bytes and level determine the version, the mask and every module of the finished symbol |
| `QrEncoder.EncodeText` | client/js/qr.js:341-367 | fails exactly when no version fits; otherwise the modules are those of the smallest version that fits, with the codewords of the bytes under the first mask of least penalty and every function module in its colour, and are read back to exactly the bytes |
| `RelayInvariants.RunInv` | server/database.py:191-229 | every reachable store satisfies the foreign keys, growing ids, ownership of every named blob by its envelope's sender, and ownership of every group by a member |
| `RelayInvariants.StepInv` | server/main.py:385-560 | each endpoint call and each sweep keeps that invariant |
| `RelayInvariants.GroupsHaveOwnersAmongMembers` | server/main.py:508-530 | in every reachable store a group has members and its owner is one of them |
| `RelayInvariants.AccessIsGrantedByTheUploader` | server/database.py:568-600 | in every reachable store access to a blob goes exactly to its uploader, recipients of the uploader's 1:1 messages naming it, and current members of groups where the uploader posted it |
| `RelayTheorems.LeavingAndDeletingAgree` | server/database.py:468-480 | leaving a group and deleting the account elect the same successor, or drop the group alike, and leave the same members |
| `RelayTheorems.SuccessorIsEldest` | server/database.py:208-218 | the successor has been a member at least as long as anybody who stays, and comes first by name among those who joined at the same time |
| `RelayEffects.MessageDelivered` | server/main.py:418-424 | a message to a user without an account is refused with 404; any other becomes the one new envelope, with the sender, recipient, payload and expiry it was posted with, last in the recipient's inbox and in the conversation of the two, and in nobody else's |
| `RelayEffects.FileMessageDelivered` | server/main.py:427-446 | the same for a file message, which names its blob, and is refused unless the blob is the sender's own |
| `RelayEffects.GroupMessageDelivered` | server/main.py:533-540 | a message of a member becomes the one new envelope of that group and of no other; of anyone else it is refused |
| `RelayEffects.GroupFileDelivered` | server/main.py:543-560 | the same for a file in a group |
| `RelayEffects.ConversationShows` | server/database.py:274-286 | a page with room shows exactly the envelopes between the two that have not expired, above the id asked for |
| `RelayEffects.InboxShows` | server/database.py:289-299 | so for the inbox |
| `RelayEffects.GroupMessagesShow` | server/database.py:530-539 | so for the messages of a group |
| `RelayEffects.Registered` | server/database.py:151-168 | a free name is registered and nothing else changes |
| `RelayEffects.UploadStored` | server/main.py:569-593 | a blob within the size limit is stored as it was sent, and only its uploader can reach it; others are refused with 400 or 413 |
| `RelayEffects.GroupCreated` | server/database.py:386-402 | a new group belongs to its creator and has as members the creator and those invited who exist |
| `RelayEffects.MemberAdded` | server/main.py:489-504 | only the owner adds, only users, and a time of joining is never moved |
| `RelayEffects.MemberRemoved` | server/main.py:507-530 | only the owner or the member removes; exactly that member leaves, the group ends only with its last one, and its owner changes only if the owner left |
| `RelayEffects.DeletionKeepsOthers` | server/database.py:191-229 | deleting an account takes no message, blob, group or membership of others |
| `RelayTheorems.TouchedIsExact` | server/database.py:191-229 | deleting an account reports exactly the surviving groups that lost a member |
| `RelayTheorems.DeletionLeavesNothing` | server/database.py:191-229 | after deletion and re-registration of the name nothing in the store mentions it, and it can reach no blob |
| `RelayTheorems.SweepRemovesExactly` | server/database.py:317-346 | the sweep removes exactly the expired envelopes, and exactly the blobs named by an expired envelope and by no survivor |
| `RelayTheorems.SweepIsInvisible` | server/database.py:274-299 | at any later time every history read gives the same answer with and without the sweep |
| `RelayTheorems.BlobKept` | server/database.py:317-367 | a stored blob outlives an operation, unchanged, if and only if that is neither the deletion of its owner nor a sweep that it falls to |
| `RelayTheorems.BlobStays` | server/database.py:317-367 | a blob is there throughout a run if and only if no operation of the run removes it |
| `RelayTheorems.UploadSurvives` | server/database.py:349-367 | whatever run of the relay follows an upload, with any sweeps within the grace period, the uploader can still post the blob |
| `RelayStore.EldestExists` | server/database.py:468-480 | every non-empty set of members has one of least join time, then name |
| `RelayStore.EldestUnique` | server/database.py:468-480 | A set of members has only one that is first by join time, then name |
| `Relay.Relay.OldestMember` | server/database.py:468-480 | the scan finds that member, leaving out a given one |
| `Relay.Relay.Register` | server/main.py:293-315 | adds the user, or 409 |
| `Relay.Relay.UploadFile` | server/main.py:569-593 | 400 or 413 for a size beyond the limit, or the blob stored under its new id for its uploader |
| `Relay.Relay.SendMessage` | server/main.py:418-424 | stores a 1:1 envelope, or 404 for an unknown recipient |
| `Relay.Relay.SendFileMessage` | server/main.py:427-446 | stores a 1:1 envelope naming a blob, or 404 unless the recipient exists and the blob is the sender's own |
| `Relay.Relay.CreateGroup` | server/database.py:386-402 | group, owner and known invited users are inserted together |
| `Relay.Relay.AddMember` | server/main.py:489-504 | 404, 403 or the added membership, with the time of the first joining kept |
| `Relay.Relay.RemoveMember` | server/main.py:507-530 | 404, 403 or the removal, with succession or the end of the group |
| `Relay.Relay.SendGroupMessage` | server/main.py:533-540 | stores a group envelope for members only |
| `Relay.Relay.SendGroupFile` | server/main.py:543-560 | stores a group envelope naming a blob, or 404 unless the sender is a member and owns the blob |
| `Relay.Relay.DeleteUser` | server/database.py:191-229 | the loop over owned groups and the cascades together leave the specified store, and return the groups to tell |
| `Relay.Relay.HandOverOwned` | server/database.py:206-220 | the loop over owned groups leaves every group handed over or dropped, and on the list of groups to tell only those that survive |
| `Relay.Relay.HandOver` | server/database.py:210-220 | one round of account deletion hands the group to the longest-standing other member, or drops it with its rows |
| `Relay.Relay.DeleteExpired` | server/database.py:317-346 | envelopes, then blobs one by one; returns how many blobs went |
| `Relay.Relay.DeleteAccount` | server/main.py:384-388 | account deletion keeps the invariant and reports the groups to tell |
| `Relay.Relay.SweepExpired` | server/main.py:191-191 | the expiry sweep keeps the invariant and counts the blobs it removes |
| `Relay.Relay.SweepOrphans` | server/main.py:192-192 | the orphan sweep keeps the invariant and counts the blobs it removes |
| `Relay.Relay.DeleteOrphans` | server/database.py:349-367 | removes exactly the old blobs that no envelope names |
| `RateLimiter.BucketCounts` | server/main.py:286-291 | after dropping old stamps a bucket's length is the number of all accepted attempts in the window |
| `RateLimiter.LimitHolds` | server/main.py:278-291 | with clocks that never go back, any MAX + 1 consecutive accepted attempts span more than the window |
| `RateLimiter.TurnedAway` | server/main.py:278-291 | an attempt is turned away exactly when the last MAX accepted ones lie within the window |
| `RateLimiter.Limiter.Enforce` | server/main.py:278-291 | the pruning limiter decides as one that keeps every accepted attempt would |
| `RateLimiter.Limiter.Prune` | server/main.py:270-275 | pruning forgets no attempt that could still count |
| `LikeSearch.ThreeReplacementsEscapeEach` | server/database.py:237-237 | the three replacements in sequence put one escape before each special character |
| `LikeSearch.SearchIsLiteral` | server/database.py:232-243 | a name matches the search pattern exactly when the query is a substring of it |
| `Trust.HandleGuarded` | client/js/app.js:1000-1105 | every step keeps a verified contact whose cached key does not hash to the pin under an alert, except that the button of the verify dialog does so exactly when the code shown is still that of the cached key |
| `Trust.RunGuarded` | client/js/app.js:1060-1105 | this holds at every point of a run if and only if every code confirmed in the dialog was current |
| `Trust.SetVerifiedGuarded` | client/js/app.js:1094-1098 | marking a contact verified keeps that invariant if and only if the code is that of the cached key |
| `Trust.ConfirmingAnotherKey` | client/js/app.js:1984-2028 | a run of three events from a fresh client after which a contact is shown as verified with another key cached |
| `Trust.RelayKeeps` | client/js/app.js:1000-1017 | no run of relay-driven steps changes or removes a verified pin or clears a link alert raised over an unverified one |
| `Trust.LinkAlertLasts` | client/js/app.js:1066-1080 | in a run of relay-driven events the alert of a link stays as it is throughout, if and only if no key adopted for the contact differs both from a verified pin and from the key the alert was raised over |
| `Trust.LinkAlertCleared` | client/js/app.js:1066-1080 | over a verified pin two served keys clear a link alert |
| `Trust.SafeIffGuarded` | client/js/app.js:1762-1799 | in any state, every message to verified contacts goes to keys that hash to their pins or is held, if and only if the invariant holds |
| `Trust.SentOnlyToPinnedKeys` | client/js/app.js:1762-1799 | at every point of a run, messages to verified contacts, alone or in groups, are wrapped only under keys that hash to the pinned codes, or held, if and only if every confirmed code was current |
| `Trust.VerifiedMeansPinned` | client/js/app.js:1060-1105 | a contact shown as verified has the pinned key in the cache, if every confirmed code was current |
| `Trust.SendingIsComplete` | client/js/app.js:1762-1799 | a message is held exactly when a contact it would go to has an alert, and otherwise goes to every member of the group, in order, or to the contact and the user, each under the key cached for that name |
| `Trust.RosterKeysCached` | client/js/app.js:1008-1017 | for a group those are the keys of its roster |
| `Trust.AlertsAreExact` | client/js/app.js:1060-1105 | in every run in which links and confirmed codes are those of the cached keys, alerts are exactly over the verified contacts whose cached key is not the pinned one, and everybody else is pinned to the cached key |
| `Trust.OnlyUserVerifies` | client/js/app.js:1060-1105 | only the dialog's button and a link make a contact verified; no served key and no accepted one does |
| `Trust.AcceptResolves` | client/js/app.js:1085-1092 | accepting an alert pins its new code, unverified, and clears only that alert |
| `Trust.LinkDecides` | client/js/app.js:2196-2230 | a link verifies exactly when its code is that of the key, and otherwise raises an alert that names both codes |
| `Trust.ButtonToggles` | client/js/app.js:1984-2028 | the dialog's button turns verification on or off under the code served for it |
| `Trust.TrustState.AdoptPeerKeys` | client/js/app.js:1060-1083 | pin, re-pin, alert or resolve, in place |
| `Trust.TrustState.GetKeys` | client/js/app.js:1000-1006 | adopts and caches what the relay serves, unless cached, and keeps the invariant |
| `Trust.TrustState.EnsureGroupLoaded` | client/js/app.js:1008-1017 | adopts a roster member by member and keeps the invariant |
| `Trust.TrustState.AcceptKey` | client/js/app.js:1085-1092 | the accepted key is pinned, unverified |
| `Trust.TrustState.MarkVerified` | client/js/app.js:1094-1098 | sets pin and flag and clears the alert |
| `Trust.TrustState.OpenFingerprint` | client/js/app.js:1984-2026 | fetches and adopts a fresh key, and settles what the button will do |
| `Trust.TrustState.PressConfirm` | client/js/app.js:2022-2028 | pins the code that was shown; keeps the invariant exactly when it is still that of the cached key |
| `Trust.TrustState.ProcessDeepLink` | client/js/app.js:2196-2230 | a matching link verifies, a mismatching one raises an alert |
| `Trust.TrustState.Send` | client/js/app.js:1774-1799 | loads keys, then holds the message exactly when one of its contacts has an alert, or names every party it is for with the cached key, verified ones only under pinned keys |
| `Paging.PageIsConversation` | server/database.py:274-286 | one page is what the conversation query returns |
| `Paging.PullHistory` | client/js/app.js:1303-1310 | ingests in strictly increasing order of id, so each at most once, and, unless it gives up at its guard, every envelope above the start that stays visible throughout; it gives up only when an id has been seen as large as the guard times a page |
| `Paging.IdsAreCounted` | server/database.py:250-286 | ids are no larger than the number of operations the relay has run |
| `Paging.TimelineInOrder` | server/database.py:250-286 | in every reachable store histories are in order of id |
| `Paging.PageIsGroupMessages` | server/database.py:530-539 | One page of a group is what the group query returns |
| `Paging.VisibleInGroupThroughout` | server/database.py:530-539 | A group envelope stays visible throughout in the same way, while its group and its sender's account exist |
| `Paging.LoadDm` | client/js/app.js:1312-1318 | whatever run of the relay lies between the pages, every envelope of the conversation stored before the first and outliving the run is ingested when the loop completes, which it does if the run has fewer operations than the guard times a page, and nothing else is |
| `Paging.LoadGroup` | client/js/app.js:1319-1325 | the same for a group, while the group and the sender's account exist |
| `Paging.VisibleThroughout` | server/database.py:274-286 | whatever run of the relay lies between the requests, an envelope stored before the first stays visible to all, unless it expires or a party's account is deleted |
| `Request.Req` | client/js/api.js:221-256 | the loop ends, with the reply of the recursive description; each send but the last failed or was the one 401 for which the token was renewed, failures are retried exactly while there are attempts, 3 for a read and 1 for a write, and the last answer is the one reported |
| `Request.AtMostFourReadsTwoWrites` | client/js/api.js:221-256 | a read is sent at most four times and a write at most twice |
| `Request.WriteRepeatedOnlyAfter401` | client/js/api.js:221-256 | a write is repeated only after a 401 and a renewed token |
| `Request.WriteStoredAtMostOnce` | client/js/api.js:221-256 | a relay that stores nothing when it answers 401 stores any write at most once |
| `Request.RetriesUsedUp` | client/js/api.js:221-256 | a failure worth a retry is reported only when the retries are used up |
| `Request.AnswerEnds` | client/js/api.js:221-256 | any answer but 401, 502, 503 and 504 ends the request and is what is reported |
| `Request.RefusalRenews` | client/js/api.js:229-243 | the first 401 to a token makes the client log in, and the request is sent again exactly when that renews the token |
| `Connection.OneSocket` | client/js/api.js:384-550 | in every run at most one socket is live and it is the current one, connected implies a socket, and backoff stays within 1000 to 20000 ms |
| `Connection.HandleMoving` | client/js/api.js:258-312 | for every event: a client with a session that wants a socket and was not denied has a socket, a retry, a current open or a re-login under way afterwards, if and only if the event does not bring the session back to a client with nothing pending |
| `Connection.NeverStuck` | client/js/api.js:384-550 | in every run, this holds at every point if and only if no event of the run does that |
| `Connection.ReconnectingDuringLogout` | client/js/api.js:296-304 | a run of eight events after which nothing is under way |
| `Connection.StaleEventsChangeNothing` | client/js/api.js:396-503 | events of replaced sockets and opens of earlier generations change nothing |
| `ConnectionEffects.CloseDecides` | client/js/api.js:476-495 | losing the current socket with code 4401 starts or joins a re-login, or ends denied without credentials, and sets no retry; with any other code it sets a retry and leaves re-logins alone |
| `ConnectionEffects.DeadIsRetried` | client/js/api.js:498-503 | a dead socket is closed and retried |
| `ConnectionEffects.UnwantedCloseIsLetGo` | client/js/api.js:476-480 | without a session or a wanted socket a close only drops the socket |
| `ConnectionEffects.OnlyExpiryRelogs` | client/js/api.js:476-495 | in every run in which no socket is closed with code 4401, no close handler waits for a re-login and the client is never denied |
| `ConnectionEffects.ReloginEnds` | client/js/api.js:260-281 | the re-login in flight ends with one outcome for everyone who waits, and a session if it succeeded |
| `ConnectionEffects.RefusalRelogs` | client/js/api.js:260-262 | a refused request starts a re-login only with credentials and when none is in flight |
| `ConnectionEffects.AppOpens` | client/js/api.js:384-416 | opening makes a new generation, closes the old socket, cancels the retry, and then makes the socket, waits for the relay's features, or retries |
| `ConnectionEffects.UserReopens` | client/js/api.js:527-533 | reconnecting does so with the least delay |
| `ConnectionEffects.RetryOpens` | client/js/api.js:516-523 | the retry timer opens if a socket is still wanted |
| `ConnectionEffects.ToldOkReopens` | client/js/api.js:482-492 | a close handler that is told of a new session reopens with the least delay |
| `ConnectionEffects.ToldFailedRetries` | client/js/api.js:482-492 | one that is told of a failure retries |
| `ConnectionEffects.ToldDeniedGivesUp` | client/js/api.js:482-492 | one that is told of a denial gives up, and none does anything when no socket is wanted |
| `ConnectionEffects.HealthDecides` | client/js/api.js:397-416 | the features of the relay let a current open go on; unknown, it is retried |
| `ConnectionEffects.ReadyConnects` | client/js/api.js:418-475 | the current socket is connected when it is ready, which resets the delay |
| `ConnectionEffects.LogoutCloses` | client/js/api.js:296-304 | after a logout there is no session, socket or retry |
| `ConnectionEffects.LogoutIsFinal` | client/js/api.js:296-304 | in every run after the start of a logout, whatever is still pending, no socket is opened until the app or the user asks |
| `Api.LattixApi.OpenSocket` | client/js/api.js:390-416 | closes the old socket, starts a new generation, and opens or waits for the health request |
| `Api.LattixApi.AfterHealth` | client/js/api.js:397-416 | the rest of an open, unless its generation is over |
| `Api.LattixApi.HandleClose` | client/js/api.js:476-495 | tears down, then re-login or retry |
| `Api.LattixApi.DropSocket` | client/js/api.js:498-503 | abandons a dead socket as if closed |
| `Api.LattixApi.ScheduleReconnect` | client/js/api.js:516-523 | sets the retry timer; backoff grows and stays within 20000 ms |
| `Api.LattixApi.Dispatch` | client/js/api.js:384-550 | whatever handler runs, the object keeps one socket and its bounds, and only an event that strands the client leaves it stuck |
| `Api.LattixApi.Process` | client/js/api.js:384-550 | after any events: at most one live socket, backoff within bounds, and never stuck unless one of them strands the client |
| `Api.LattixApi.ReconnectNow` | client/js/api.js:527-533 | skips the pending backoff |
| `Api.LattixApi.ReloginDone` | client/js/api.js:260-281 | a single flight settles for every close handler that waits |
| `Api.LattixApi.CloseHandlerResumes` | client/js/api.js:482-492 | reopens, retries or gives up |
| `Api.LattixApi.LogoutEnd` | client/js/api.js:296-304 | closes the socket and drops the session |
| `Transcript.WrapOrderIrrelevant` | client/js/crypto.js:83-90 | transcripts do not depend on the order in which parties were wrapped |
| `Transcript.Concat` | client/js/crypto.js:41-47 | fills the buffer with the arrays one after the other |
| `Transcript.BuildTranscript` | client/js/crypto.js:83-90 | prefix, nonce, ciphertext, then every party in order of name |
| `Transcript.FileTranscriptInjective` | client/js/crypto.js:161-167 | for NUL-free contexts, a file of fixed-size fields, and any other for the same parties: they agree in context and every field if and only if the transcripts are equal and the other has its fixed sizes too |
| `Transcript.FileTranscriptsEqual` | client/js/crypto.js:161-167 | for any parties and sizes and NUL-free contexts, transcripts are equal if and only if the contexts are and the fields run together to the same octets |
| `Transcript.SizedFieldsEqual` | client/js/crypto.js:161-167 | of fixed sizes, the fields before the metadata are determined one by one |
| `Transcript.ReshapedTranscript` | client/js/crypto.js:161-167 | moving the last octet of the nonce to the next field leaves the transcript and changes the file |
| `Transcript.SharedTranscripts` | client/js/crypto.js:162-163 | two lists of parties admit different payloads of fixed sizes with one transcript, with metadata of any length, if and only if the lists differ and their layouts, end to end, fix no octet differently |
| `Transcript.SharedWithOtherSizes` | client/js/crypto.js:162-163 | when only one of the payloads has its fixed sizes, any two lists of parties do, equal ones among them |
| `Transcript.BobAndAbob` | client/js/crypto.js:162-163 | two payloads, for bob and for abob, with metadata of any length, that differ and share a transcript |
| `Transcript.MessageTranscriptsEqual` | client/js/crypto.js:115-123 | for any parties and sizes, message transcripts are equal if and only if contexts and fields run together to the same octets |
| `Transcript.MessageTranscriptInjective` | client/js/crypto.js:115-123 | a message of fixed-size fields, and any other for the same parties in a context of the same length: they agree in everything if and only if the transcripts are equal and the other has its fixed sizes too |
| `Transcript.MessageContextsApart` | client/js/crypto.js:112-121 | two contexts admit messages with one transcript if and only if one is a prefix of the other, and then for any parties and with ciphertexts of at least a tag |
| `Transcript.KindsSeparate` | client/js/crypto.js:121-167 | messages, version-1 files and version-2 files never share a transcript |
| `Transcript.Spelled` | client/js/crypto.js:121-161 | the prefixes of the three kinds |
| `Transcript.BelowMeans` | client/js/crypto.js:85-85 | names are sorted as beginnings first and otherwise by the first octet that differs |
| `Transcript.TwoPartyTail` | client/js/crypto.js:83-90 | the keys of two parties follow in that order, each as name, ciphertext, nonce and wrapped key |
| `Transcript.TranscriptsSpelled` | client/js/crypto.js:115-167 | for one party, the three transcripts written out field by field |
| `Envelope.WrapCekForParties` | client/js/crypto.js:91-101 | the loop wraps the content key once per name |
| `Envelope.WrappedEntry` | client/js/crypto.js:91-101 | every party has the key made for the last one of its name |
| `Envelope.WrappedOnly` | client/js/crypto.js:91-101 | No name but that of a party has a wrapped key |
| `Envelope.MessageRoundTrip` | client/js/crypto.js:115-138 | every party reads the text back; anyone else is refused |
| `Envelope.FileRoundTrip` | client/js/crypto.js:172-250 | every party reads metadata and contents back, and other contents are refused exactly when their hash differs from the signed one |
| `Envelope.FileRefused` | client/js/crypto.js:214-250 | nobody but the parties, and nothing with a wrong signature, opens or decrypts |
| `Envelope.CardTells` | client/js/crypto.js:209-232 | a card says verified exactly if the signature verifies, and legacy exactly for version 1 |
| `Envelope.LegacyFileRead` | client/js/crypto.js:194-250 | a version-1 file is still read by its parties |
| `Envelope.AcceptedFileWasSent` | client/js/crypto.js:195-250 | if none of what readers were shown is forged, a version-2 file that decrypts, of whatever sizes, was signed as such for this conversation with the same octets in its fields, and has the signed hash; for the same parties it is what was sent in every field if and only if it has its fixed sizes |
| `Envelope.AcceptedMessageWasSent` | client/js/crypto.js:125-138 | if none of what readers were shown is forged, a message that decrypts, of whatever sizes, was signed as a message, in a context that one of the two begins with; for the same parties and a context of the same length it is the very message if and only if it has its fixed sizes |
| `Envelope.ReshapedVerifies` | client/js/crypto.js:194-198 | the signature of a file is also one of the file reshaped |
| `Envelope.ReshapedIsRead` | client/js/crypto.js:234-250 | an instance in which the file reshaped decrypts, though nothing was forged |
| `Envelope.SendingFileKeepsOnlySent` | client/js/crypto.js:172-192 | what an honest sender of files makes and shows verifies and adds no forgery |
| `Envelope.SendingMessageKeepsOnlySent` | client/js/crypto.js:115-124 | what an honest sender of messages makes and shows verifies and adds no forgery |
| `Envelope.HonestSenderExists` | client/js/crypto.js:172-250 | the premises on primitives, sizes, keys and forgery hold together, for a file that its reader decrypts |

## Left out

- `Envelope.AcceptedMessageWasSent`: says which fields agree only for the same parties and contexts of one length, because transcripts determine no more; so for files of other parties.
- `Trust.SentOnlyToPinnedKeys`: is about `sendCurrent`; `sendFile` awaits between its check and reading the recipients and is not modelled.
- `Trust.RelayKeeps`: says link alerts last over unverified pins only; `Trust.LinkAlertLasts` has the exact condition over any pin.
- `Paging.PullHistory`: starts at the id it is given; where a resynchronisation reads that id from is not modelled.
- `Relay.Relay.UploadFile`: takes the fresh file id as a parameter and the size limit at its default; the chunks an upload is read in are not modelled.
- Database calls of one endpoint take the lock one by one; here an endpoint call or one of the sweeps is one step, and so are adopting a peer's key and caching it.
- Keys, avatars, tokens, passwords, payload text and time-to-live limits of the relay; user names are lower case already.
- Times are real numbers, and clocks are parameters; the limiter compares them without floating-point rounding.
- Jitter, pings, the watchdog and the ready timeout are events that may come at any time; how long anything takes is not modelled.
- Presence, delivery over sockets, and interleaved ingestion with its de-duplication.
- TextEncoder, base64, JSON and the cryptographic primitives: texts are octets, and primitives are functions of which only their inverses are assumed. Secrecy is not stated.
- Correcting errors: that damaged codewords have one reading is proved, but no decoder is modelled, and the reader reads undamaged symbols. That format and version codes are far apart is not stated.
- Vaults and backups, rendering, settings, static hosting, installers, and schema migration.
