# micro-bng: a verified model of its core

This project models the hard core of the micro-bng broadband gateway in Dafny and proves what that code is for:
the red-black tree behind its server lookups, the DES, MD5 and SHA-1 primitives, the life cycle of sessions under
concurrency, the connection limiter, the IPv4 and IPv6 address pools, the session backup file, the PPTP channel,
the chained hash table, the IPoE throttle and Base32.

`dafny verify dfyconfig.toml` checks everything.

## How it is laid out

- **Red-black tree.** `RbModel` holds trees and zippers as values, with the insertion and erasure repairs and their
  proofs. `RbHeap` ties nodes with parent, left, right and colour fields to those values (`Holds`). `RbInsert`,
  `RbErase` and `RbTree` are the C code on nodes; `RbTree.IfTree` is the per-interface server tree that uses it.
- **Crypto.** `HashStream` is the buffered update and padding shared by the hashes, `Words32` their words, `Md5` and
  `Sha1` the compression functions in their rolled and unrolled forms. `Md5Rfc` and `Sha1Rfc` state the algorithms of
  RFC 1321 and RFC 3174 on their own and prove the code equal to them; `Md5Vector` and `Sha1Vector` tie the constants
  by the digest of "abc". `Feistel` is the round ladder of any Feistel cipher, `DesTables` and `Des` the small-code DES;
  `DesBoxes`, `DesStandard` and `DesKeys` are the substitution boxes, the cipher and the key schedule of FIPS 46-3 they
  are proved equal to.
- **Sessions.** `Session` is a state machine whose steps make at most one access to shared memory each.
  `SessionSafety` proves the counters and the list, `SessionShutdown` soft shutdown, `SessionNames` the
  single-session rule, `SessionRequest` exactly when a shutdown may be asked for, and `SessionOverlap` calls of one
  session that overlap. A run is any sequence of steps; a step that cannot be taken changes nothing.
- **Pools.** `IpPool` fills an IPv4 pool from a linked ring, `AddressPools` is taking and releasing addresses under
  interleaving, `Ipv6Pool` byte-wise 128-bit arithmetic and the networks generated with it.
- **The rest.** `ConnLimit` with `ConnRate` and `ConnAccepts`, `Backup` with `BackupHidden`, `Pptp` with `PptpPair`,
  `HashTable`, `IpoeThrottle` and `Base32`, one source file each; `Common` holds what several modules use.

## What turned out not to hold

Each of these has a lemma with the input that shows it, and the condition under which the promise does hold.

- The soft-shutdown callback is not called exactly once in every interleaving. A request that falls between the two
  counter updates of a termination calls back while a session is still listed (`SessionShutdown.CalledEarly`), and a
  session that has only passed its first look at the flag is enough for two calls (`SessionRequest.CalledTwice`).
  Whatever the threads do after the request, the callback runs at most once and only with an empty list, if and only if
  no session was underway at the request (`SessionRequest.SafeRequest`). With sessions underway it is never lost
  (`NeverLost`), and it is called exactly once, with an empty list, when from the request on the critical stretches do
  not overlap (`ExactlyOnce`).
- The connection limiter rounds seconds and nanoseconds apart, so half a millisecond can pay for a whole one
  (`ConnRate.HalfAMillisecond`). A lapse is measured no longer than it was exactly when the nanoseconds do not borrow,
  or borrow whole milliseconds (`LapseBound`). The rate bound holds in exact time when every paying call is so, and
  otherwise with one millisecond added for every second that begins (`ConnRate.Rate`).
- The bound B (1 + X/T) + X/L counts from a key's first call. A later stretch of the run can hold the end of one burst
  and the whole of the next (`ConnRate.TwoBursts`), and for any stretch the bound is B (2 + X/T) + X/L (`Rate`).
- The limiter's 32-bit age wraps after 49.7 days, and the pruned list can accept what the key's own record refuses
  (`ConnLimit.QuietTooLong`). The two decide alike as long as every call comes within 2^32 ms of its record's stamp
  (`ListIsMap`), and the first call they differ on is one whose record is lost and would have refused
  (`FirstDifference`).
- The backup writer flushes its vector only after a tag. A first module of 1019 tags and any module behind it put a
  buffer beyond the vector (`Backup.Overrun`); `Backup.FitsExactly` gives the numbers of tags for which none is.
- A tag identifier of 0, or any multiple of 256, reads as the end of its module (`Backup.ZeroIdEnds`), and any other
  above 255 comes back changed. The function that adds tags takes a byte, so through it only 0 can do harm; above 255 a
  caller has to set the field itself. An internal restore gives back what was saved if and only if module identifiers are
  at most 255 and tag identifiers from 1 to 255 (`Backup.RoundTrip`). A restore that is not internal gives exactly the
  tags that are not, whatever the internal ones hold, if and only if the same holds of the others and no internal tag's
  identifier is a multiple of 256 (`BackupHidden.HiddenNeverMatters`).
- A PPTP frame with a legal protocol number comes back unchanged exactly unless both compressions are on and it
  begins with 00 ff 03 (`Pptp.PackRoundTrip`).
- A PPTP packet that arrives in order after losses is taken exactly if its number is above the last one taken, or that
  was 2^32 - 1, and it does not look like a straggler (`Pptp.AfterLoss`). One that is not taken is delivered all the
  same exactly if it is an LCP echo and address compression is off (`Pptp.EchoIff`, `Pptp.Arrives`). So when the numbers
  begin again and 2^32 - 1 was not taken, only such echoes come through (`Outage`), and with address compression nothing
  does (`Silence`), until 2^32 + 1 packets after the last one taken (`NextThrough`, `Resumption`).
- The guard of a finish holds off other finishes of its session (`SessionOverlap.OneFinish`), not a termination. The
  calls of one session run one after the other in its own context; if a termination ran beside a finish, the session
  would leave every counter if and only if the finish did not read the state between the termination's look at the guard
  and its new state (`SessionOverlap.LeftAll`, `SessionOverlap.Overtaken`).
- An IPv6 pool whose network ends at the last address there is has no address beyond its end, so its generator
  never stops; any other does (`Ipv6Pool.TopHasNoBeyond`, `Ipv6Pool.Generate`).
- The Base32 decoding table is written out for 129 bytes only, so the decoder also takes every byte above 128 for
  the letter A (`Base32.TakenForSymbol`).

## Model

| member | source | states |
|---|---|---|
| RbModel.InsertFixCorrect | micro-bngd/rbtree.c:72-135 | for every tree that is red-black but for a red node at the focus, the insertion repair gives a red-black tree (black root, no red-red edge, equal black heights) with the same in-order sequence |
| RbModel.EraseFixCorrect | micro-bngd/rbtree.c:137-221 | for every tree one black short at the focus, the erasure repair gives a red-black tree with the same in-order sequence |
| RbModel.EraseCorrect | micro-bngd/rbtree.c:223-288 | erasing any node of a red-black tree gives a red-black tree whose in-order sequence is the old one without exactly that node |
| RbModel.HeightBound | micro-bngd/rbtree.c:72-288 | the height of a red-black tree of n nodes is at most 2 log2(n + 1) |
| RbModel.PlugRedBlack | micro-bngd/rbtree.c:72-135 | a balanced subtree of the right black height makes the whole tree red-black when put back |
| RbModel.InsertFixInorder | micro-bngd/rbtree.c:26-135 | rotations and recolouring of the insertion repair never change the in-order sequence |
| RbModel.EraseFixInorder | micro-bngd/rbtree.c:26-221 | nor do those of the erasure repair |
| RbModel.EraseInorder | micro-bngd/rbtree.c:223-288 | splicing out a node, or its in-order successor in its place, removes that node and no other |
| RbHeap.RotateLeft | micro-bngd/rbtree.c:26-47 | relinking the child, parent and root pointers rotates the modelled tree to the left and leaves the path above |
| RbHeap.RotateRight | micro-bngd/rbtree.c:49-70 | the mirror image |
| RbInsert.InsertStep | micro-bngd/rbtree.c:76-132 | one turn of the loop on nodes is one step of the modelled repair |
| RbInsert.InsertColor | micro-bngd/rbtree.c:72-135 | the loop on nodes terminates with the nodes holding the repaired tree, parent links included |
| RbErase.EraseStep | micro-bngd/rbtree.c:142-217 | one turn of the erasure loop on nodes is one step of the modelled repair |
| RbErase.EraseColor | micro-bngd/rbtree.c:137-221 | the erasure loop on nodes terminates with the nodes holding the repaired tree |
| RbErase.EraseNode | micro-bngd/rbtree.c:223-288 | erasing on nodes, with zero, one or two children and the neighbouring-successor case, holds the modelled erasure |
| RbErase.ReplaceNode | micro-bngd/rbtree.c:370-391 | the heir takes the victim's place in the tree and nothing else changes |
| RbTree.First | micro-bngd/rbtree.c:293-303 | the first node of the in-order sequence, or null for an empty tree |
| RbTree.Last | micro-bngd/rbtree.c:305-315 | the last node of the in-order sequence, or null |
| RbTree.Next | micro-bngd/rbtree.c:317-343 | the in-order successor, or null after the last |
| RbTree.Prev | micro-bngd/rbtree.c:345-367 | the in-order predecessor, or null before the first |
| RbTree.LinkNode | micro-bngd/include/rbtree.h:170-177 | the node hangs as a red leaf at the given place |
| RbTree.IfTree.Search | micro-bngd/ctrl/pppoe/disc.c:256-274 | the descent finds the key or the one place where it belongs |
| RbTree.IfTree.Start | micro-bngd/ctrl/pppoe/disc.c:253-284 | a server is added exactly if its interface is not served yet; the tree stays sorted and red-black with one node more |
| RbTree.IfTree.Stop | micro-bngd/ctrl/pppoe/disc.c:344-358 | exactly that server leaves the tree, which stays sorted and red-black |
| RbTree.IfTree.Forward | micro-bngd/ctrl/pppoe/disc.c:378-414 | finds the server of an interface if and only if there is one |
| RbTree.IfTree.StopAll | micro-bngd/ctrl/pppoe/disc.c:477-500 | the walk from the first node visits every server once, in order |
| Feistel.RoundsInvert | crypto/des.c:1452-1474 | running the rounds with the pairs of keys in reverse order on crossed halves undoes them, for any round function |
| Feistel.LadderPairs | crypto/des.c:1452-1474 | two half-rounds at a time are the single rounds of the textbook ladder |
| Feistel.RunRounds | crypto/des.c:1452-1474 | the loop over pairs of half-rounds, by any code that adds the round function, computes the rounds |
| Des.FinalThenInitial | crypto/des.c:1414-1513 | the final swap network, then the initial one on swapped halves, is the identity |
| Des.InitialThenFinal | crypto/des.c:1414-1513 | and the other way round |
| DesBoxes.Entry1 | crypto/des.c:92-110 | every entry of the combined table is the output of the first substitution box of FIPS 46-3, in its rows and columns, put through the permutation P |
| DesBoxes.Entry2 | crypto/des.c:112-130 | the same of the second |
| DesBoxes.Entry3 | crypto/des.c:132-150 | of the third |
| DesBoxes.Entry4 | crypto/des.c:152-170 | of the fourth |
| DesBoxes.Entry5 | crypto/des.c:172-190 | of the fifth |
| DesBoxes.Entry6 | crypto/des.c:192-210 | of the sixth |
| DesBoxes.Entry7 | crypto/des.c:212-230 | of the seventh |
| DesBoxes.Entry8 | crypto/des.c:232-250 | of the eighth |
| Des.InitialIsStandard | crypto/des.c:1413-1435 | the initial network is the standard's initial permutation, both halves rotated by one |
| Des.ScheduleReversed | crypto/des.c:1306-1355 | the deciphering schedule is the enciphering one with its round keys in reverse order |
| Des.ParityIgnored | crypto/des.c:1306-1391 | keys that differ only in parity bits have the same schedule |
| Des.AllRoundsInvert | crypto/des.c:1452-1474 | the sixteen rounds undo themselves under the reversed schedule |
| Des.DesfuncInverts | crypto/des.c:1402-1513 | the block function under the reversed schedule is its own inverse |
| Des.EcbBothWays | crypto/des.c:1591-1624 | the same on blocks of eight bytes, in both orders |
| Des.DecryptUndoesEncrypt | crypto/des.c:1591-1624 | for every key and block, decrypting undoes encrypting and encrypting undoes decrypting |
| Des.ParityNeverMatters | crypto/des.c:1306-1624 | parity bits of the key change no ciphertext and no plaintext |
| Des.FillKeys | crypto/des.c:1320-1350 | the loop fills every round's place of the schedule with the bits of its rotation, in the order the direction asks for |
| Des.Deskey | crypto/des.c:1306-1355 | the key set-up loops compute the schedule |
| Des.Cookey | crypto/des.c:1366-1391 | the repacking loop spreads every pair of raw words over the S-box positions |
| Des.DesfuncInPlace | crypto/des.c:1402-1513 | the in-place block function computes the modelled one |
| Des.HalfRoundIs | crypto/des.c:1453-1473 | the two steps of the code, odd boxes and then even boxes, add the round function to the other half |
| Des.EcbBlock | crypto/des.c:1591-1624 | loading, enciphering and storing a block |
| DesStandard.RoundIsStandard | crypto/des.c:1453-1473 | the round with its combined S-box and permutation tables is the round function of FIPS 46-3: expansion, S-boxes, permutation P |
| DesStandard.RoundsAreStandard | crypto/des.c:1452-1474 | sixteen rounds on rotated halves are the standard's sixteen rounds |
| DesStandard.DesfuncIsStandard | crypto/des.c:1402-1513 | the block function is the enciphering computation of FIPS 46-3, initial permutation to preoutput |
| DesStandard.DesfuncIsCiphertext | crypto/des.c:1402-1513 | a block is the result of the code if and only if its initial permutation is the R16 L16 of the standard |
| DesKeys.Choice1Is | crypto/des.c:70-75 | the table is permuted choice 1 of FIPS 46-3, counted from 0 |
| DesKeys.Choice2Is | crypto/des.c:84-89 | the table is permuted choice 2 |
| DesKeys.KeyBitIs | crypto/des.c:53-56 | the mask picks the bit with that place in the byte, the first counting most |
| DesKeys.WeightIs | crypto/des.c:58-66 | bit i of 24 counts 2^(23 - i) |
| DesKeys.LoadIsBlock | crypto/des.c:1597-1598 | the two words of a block are the numbers its bytes spell, the first byte counting most |
| DesKeys.CDIsTurned | crypto/des.c:1320-1341 | rotating once by the sum of the shifts is shifting C and D round by round as the standard does |
| DesKeys.RawKeysAreStandard | crypto/des.c:1306-1355 | the raw keys of the code are K1 to K16 of FIPS 46-3, made with the tables the standard prints |
| DesKeys.EncryptIsStandard | crypto/des.c:1306-1624 | for every key and block of eight bytes the code's encryption is the ciphertext of FIPS 46-3, and nothing else is |
| HashStream.State.Process | crypto/tomcrypt_hash.h:341-375 | an update of any length appends to the message absorbed; curlen stays below 64 and length counts the compressed bits modulo 2^64 |
| HashStream.State.Done | crypto/md5.c:260-307 | padding in place in one block or two gives the digest of the message absorbed |
| HashStream.State.Close | crypto/sha1.c:193-239 | the in-place padding compresses exactly the tail of the padded message |
| HashStream.HashPieces | crypto/tomcrypt_hash.h:341-375 | for every way of cutting a message into updates, the digest is the fold of the compression over the padded message |
| HashStream.DigestClosed | crypto/md5.c:260-307 | folding the padded message is closing the state after its whole blocks |
| HashStream.PaddedInjective | crypto/md5.c:260-307 | no two messages of fewer than 2^61 bytes have the same padded form |
| Words32.RolIsTurned | crypto/tomcrypt_macros.h:335 | the rotation macro is, for every count below 32, that many times doubling modulo 2^32 with the bit that overflows coming in at the bottom |
| Words32.LittleIsNumber | crypto/tomcrypt_macros.h:26-30 | the little-endian load gives the number its bytes spell, the last counting most |
| Words32.BigIsNumber | crypto/tomcrypt_macros.h:48-52 | the big-endian load gives the number its bytes spell, the first counting most |
| Words32.StoreThenLoad | crypto/tomcrypt_macros.h:22-52 | what is stored in either order is loaded again |
| Md5Rfc.CompressIsRfc | crypto/md5.c:103-216 | for every state and block the compression is that of section 3.4 of RFC 1321: 64 operations on the named registers A, D, C and B in turn, words i, 5i + 1, 3i + 5 and 7i modulo 16 |
| Md5Rfc.StepIsRfc | crypto/md5.c:46-56 | each macro assigns what the RFC's operation of its round assigns |
| Md5Rfc.FIsRfc | crypto/md5.c:39 | the shortened macro is F of the RFC |
| Md5Rfc.GIsRfc | crypto/md5.c:40 | the shortened macro is G of the RFC |
| Md5Rfc.FWhereSet | crypto/md5.c:39 | on any bits where the first word is set F is the second |
| Md5Rfc.FElsewhere | crypto/md5.c:39 | and the third where it is not |
| Md5Rfc.GWhereSet | crypto/md5.c:40 | where the third word is set G is the first |
| Md5Rfc.GElsewhere | crypto/md5.c:40 | and the second where it is not |
| Md5Rfc.HWhereEqual | crypto/md5.c:41 | where the last two words agree H is the first |
| Md5Rfc.HWhereDifferent | crypto/md5.c:41 | and its complement where they differ |
| Md5Rfc.IWhereSet | crypto/md5.c:42 | where the first word is set I is the complement of the second |
| Md5Rfc.IWhereClear | crypto/md5.c:42 | and so where the third is not |
| Md5Rfc.IElsewhere | crypto/md5.c:42 | and the second itself everywhere else |
| Md5Rfc.WordsAre | crypto/md5.c:58-63 | the word order is the RFC's index formula |
| Md5Rfc.ShiftsAre | crypto/md5.c:65-70 | the shifts are the four of each round in turn |
| Md5Rfc.LoopsAreOperations | crypto/md5.c:122-142 | for any macro and any tables, the rotating registers of the loops hold what the named ones do |
| Md5Vector.AbcDigest | crypto/md5.c:232-307 | the digest of "abc" is 900150983cd24fb0d6963f7d28e17f72, as the test suite of the RFC says |
| Md5.ScheduleIsTables | crypto/md5.c:58-208 | the 64 unrolled lines carry exactly the word order, shifts and constants of the tables |
| Md5.RolledLoops | crypto/md5.c:122-142 | the four loops with register rotation compute the 64 steps |
| Md5.Unrolled | crypto/md5.c:143-208 | the unrolled lines in groups of four compute the same |
| Md5.CompressRolled | crypto/md5.c:103-216 | the compression of this build computes the one proved to be the RFC's |
| Md5.CompressUnrolled | crypto/md5.c:103-216 | and so does the unrolled form |
| Md5.LoadWords | crypto/md5.c:111-114 | the load loop reads sixteen little-endian words |
| Sha1Rfc.CompressIsRfc | crypto/sha1.c:47-148 | for every state and block the compression is that of section 6.1 of RFC 3174 |
| Sha1Rfc.WordsAreRfc | crypto/sha1.c:55-70 | the expanded words are W(0) to W(79) of the RFC |
| Sha1Rfc.StepIsRfc | crypto/sha1.c:74-77 | each macro computes TEMP of its step, with the RFC's f(t) and K(t) |
| Sha1Rfc.F0IsRfc | crypto/sha1.c:39 | the shortened macro is f(0..19) of the RFC |
| Sha1Rfc.F2IsRfc | crypto/sha1.c:41 | the shortened macro is f(40..59) of the RFC |
| Sha1Rfc.F0WhereSet | crypto/sha1.c:39 | on any bits where the first word is set F0 is the second |
| Sha1Rfc.F0Elsewhere | crypto/sha1.c:39 | and the third where it is not |
| Sha1Rfc.F1WhereEqual | crypto/sha1.c:40 | where the last two words agree F1 is the first |
| Sha1Rfc.F1WhereDifferent | crypto/sha1.c:40 | and its complement where they differ |
| Sha1Rfc.F2FirstTwo | crypto/sha1.c:41 | where the first two words agree F2 is what they are |
| Sha1Rfc.F2FirstAndLast | crypto/sha1.c:41 | and so for the first and the third |
| Sha1Rfc.F2LastTwo | crypto/sha1.c:41 | and for the last two |
| Sha1Rfc.ExpandedIs | crypto/sha1.c:67-70 | the expansion is the only sequence that begins with the sixteen words and goes on by the rule |
| Sha1Vector.AbcDigest | crypto/sha1.c:164-239 | the digest of "abc" is a9993e364706816aba3e25717850c26c9cd0d89d, as the RFC's first test says |
| Sha1.RolledLoops | crypto/sha1.c:79-96 | the rolled loops compute the 80 steps |
| Sha1.UnrolledLoops | crypto/sha1.c:97-133 | the loops unrolled by five compute the same |
| Sha1.CompressRolled | crypto/sha1.c:47-148 | the compression of this build computes the one proved to be the RFC's |
| Sha1.CompressUnrolled | crypto/sha1.c:47-148 | and so does the unrolled form |
| Sha1.LoadWords | crypto/sha1.c:55-70 | sixteen big-endian words, expanded to eighty |
| Session.LocalShare | micro-bngd/session.c:132-383 | every step of a session moves each counter by exactly the change in what the session contributes to it |
| Session.LocalList | micro-bngd/session.c:132-242 | a step enters the list only from outside it and leaves it only from inside |
| SessionSafety.CountsAlways | micro-bngd/session.c:132-383 | in every interleaving each counter is the number of sessions that contribute to it |
| SessionSafety.ListedAlways | micro-bngd/session.c:152-154 | in every interleaving the list holds each live session once and no other |
| SessionSafety.QuietCounts | micro-bngd/session.c:132-383 | whenever no call is running, starting, active and finishing are the numbers of listed sessions in those states, and incoming those accepted or starting |
| SessionSafety.GivenBackOnce | micro-bngd/session.c:183-261 | in every interleaving a session gives its incoming slot back at most once, and exactly once when active, finished or given up |
| SessionShutdown.NeverLost | micro-bngd/session.c:323-414 | in every interleaving, once the request is answered and no session is left, the callback has run |
| SessionShutdown.ZeroMeans | micro-bngd/session.c:323-329 | the three counters are zero if and only if every session still held is between two counters |
| SessionShutdown.ExactlyOnce | micro-bngd/session.c:323-414 | when from the request on the critical stretches do not overlap, whatever came before, the callback runs at most once, with an empty list, and exactly once by the time the request is answered and no session is left |
| SessionShutdown.CalledEarly | micro-bngd/session.c:363-371 | a reachable state in which the callback has run while a session is listed |
| SessionRequest.SafeRequest | micro-bngd/session.c:323-414 | every continuation after a request calls back at most once and only with an empty list, if and only if no session is underway at the request |
| SessionRequest.CalmRequest | micro-bngd/session.c:390-414 | with no session underway at the request the list stays empty and the callback runs exactly once, by the asker |
| SessionRequest.CanSpoil | micro-bngd/session.c:244-414 | with any session underway, wherever it stands and whoever waits for whom, some continuation calls back twice |
| SessionRequest.Line | micro-bngd/session.c:220-329 | all sessions underway can go on to their look at the flag, one after the other, although some wait for others |
| SessionRequest.CalledTwice | micro-bngd/session.c:132-329 | a run in which the callback has run twice |
| SessionOverlap.OneFinish | micro-bngd/session.c:220-232 | however many finishes of one session come, during a termination or not, the guard lets one through |
| SessionOverlap.LeftAll | micro-bngd/session.c:229-383 | once the finish has ended and no termination is running the session has left every counter, if and only if the finish did not read the state inside a termination; otherwise exactly what is left over |
| SessionOverlap.Overtaken | micro-bngd/session.c:220-383 | a run in which it did, to the end of both calls, with active at -1 and finishing at 1 |
| SessionNames.WaitingIsArmed | micro-bngd/session.c:505-542 | in every interleaving a session waits if and only if exactly one other session, which can still do so, is bound to wake it |
| SessionNames.WokenOnce | micro-bngd/session.c:276-280 | a session is told to wait at most once and woken exactly as often, even if the older one had begun to finish |
| SessionNames.NoDeadlock | micro-bngd/session.c:505-542 | behind every waiting session there is one that waits for nobody and is bound to wake somebody |
| SessionNames.OnePerName | micro-bngd/session.c:510-520 | in deny mode no two listed sessions ever share a name, unless one failed at authentication |
| SessionNames.ScanAndTakeName | micro-bngd/session.c:505-542 | the scan of the list refuses exactly when the name is taken in deny mode, and in replace mode arms the first free bearer and no other and tells every bearer to terminate |
| SessionNames.Replaces | micro-bngd/session.c:510-536 | in replace mode a newcomer waits whenever a listed bearer of the name wakes nobody yet: the first such is bound to wake it, every bearer is told to terminate, and no other session changes |
| SessionNames.TakesAtOnce | micro-bngd/session.c:510-541 | with no such bearer, and in the other modes unless denied, it takes the name and goes on at once |
| SessionNames.AllButOneSuperseded | micro-bngd/session.c:505-542 | in replace mode, in every interleaving, of any two listed sessions of one name, neither failed at authentication, one has been told to terminate and has a newer one waiting for it |
| ConnLimit.Limiter.Check | micro-bngd/extra/connlimit.c:29-104 | on runs of any length searching, pruning and reordering the shared list gives every key the verdict of its own record, and only records that have outlived the burst timeout are lost; the new list is the stated one |
| ConnLimit.StaleStartsOver | micro-bngd/extra/connlimit.c:46-75 | a lost record decides as the record would exactly if the 32-bit counter holds it for outlived too, as it does within 2^32 ms; the exact condition under which the verdicts differ |
| ConnLimit.ListIsMap | micro-bngd/extra/connlimit.c:29-104 | while every call comes within 2^32 ms of its record's stamp, the list decides as a map that loses nothing |
| ConnLimit.FirstDifference | micro-bngd/extra/connlimit.c:46-75 | the first call that list and map decide differently is one whose record is lost and would have refused, and conversely |
| ConnLimit.AnswerTracks | micro-bngd/extra/connlimit.c:43-90 | what one check makes of the list holds the records of its keys, and every record it lacks has outlived the burst timeout |
| ConnLimit.Search | micro-bngd/extra/connlimit.c:43-90 | the loop over the list prunes what stands before the key and nothing behind it |
| ConnLimit.LapseMonotone | micro-bngd/extra/connlimit.c:46 | the measured lapse never goes back while the clock goes on |
| ConnAccepts.AcceptsDecide | micro-bngd/extra/connlimit.c:46-68 | every verdict follows, by the stated rule about bursts, from the accepted calls of the key alone |
| ConnAccepts.RefusalsForgotten | micro-bngd/extra/connlimit.c:46-68 | without the calls that were refused every verdict would be the same |
| ConnAccepts.WaitedEnough | micro-bngd/extra/connlimit.c:56-65 | a call that comes the limit timeout or more after the key's last accepted call is accepted, whatever was refused in between, within 2^32 ms of the time it is measured from |
| ConnAccepts.RoomLeft | micro-bngd/extra/connlimit.c:49-68 | the first call of a key is accepted, and any call while its current burst has let fewer than the burst through |
| ConnAccepts.AlwaysNewestFirst | micro-bngd/extra/connlimit.c:49-90 | after any calls the list is in the order of the stamps, the newest in front |
| ConnRate.LapseBound | micro-bngd/extra/connlimit.c:46 | a measured lapse is no longer than the time that passed if and only if the nanoseconds do not borrow or borrow whole milliseconds; otherwise it is too long by less than a millisecond |
| ConnRate.PaidInTime | micro-bngd/extra/connlimit.c:48-68 | from any call of a run on, every new burst cost a burst timeout and every accept by the limit a limit timeout of the time since, but for one that may have been paid before if the key had a record then |
| ConnRate.Rate | micro-bngd/extra/connlimit.c:29-104 | from any call of a run to any later one, X milliseconds apart, the accepts of a key are at most B (2 + X/T) + X/L, and B (1 + X/T) + X/L from its first call on, on runs of any length and whatever the list has lost; in exact time when every paying call is measured no longer than it took |
| ConnRate.HalfAMillisecond | micro-bngd/extra/connlimit.c:46 | two calls half a millisecond apart that break the bound with X in exact time |
| ConnRate.TwoBursts | micro-bngd/extra/connlimit.c:48-68 | five accepts within a millisecond with B = 3, which a bound from the key's first call does not allow in a later stretch |
| ConnLimit.QuietTooLong | micro-bngd/extra/connlimit.c:46 | six calls of which the list accepts the last and the key's record refuses it |
| IpPool.Unlink | micro-bngd/include/list.h:83-99 | unlinking leaves a ring of the other links |
| IpPool.Choose | micro-bngd/extra/ippool.c:227-256 | the link drawn and where both cursors end, as places in the ring; never on the one drawn |
| IpPool.Draw | micro-bngd/extra/ippool.c:227-264 | that link, or without the shuffle the first, is drawn and the ring stays a ring of the others |
| IpPool.Turn | micro-bngd/extra/ippool.c:221-264 | one turn draws what comes next in order or passes, at most ten times in a row |
| IpPool.Generate | micro-bngd/extra/ippool.c:214-292 | for any stream of random bytes the generator terminates; the items hold the tunnel addresses in the order in which cursors and bytes draw them, and account for every one |
| IpPool.OrderPermutes | micro-bngd/extra/ippool.c:221-264 | whatever the bytes, that order is a permutation |
| IpPool.PeersArePermutation | micro-bngd/extra/ippool.c:214-292 | with a gateway set the peers are the tunnel addresses without the gateway's own, in that order; a permutation, and without the shuffle the list's order |
| IpPool.GenerateNet30 | micro-bngd/extra/ippool.c:294-339 | the second and third of every four addresses make an item, also of a last three |
| AddressPools.AlwaysConserved | micro-bngd/extra/ippool.c:342-389 | in every interleaving each item lies once in its own pool or is held by one session, and no session gives its address back twice |
| AddressPools.NextConserves | micro-bngd/session.c:229-266 | every step of a search, a take and a finish keeps that |
| AddressPools.FirstInFirstOut | micro-bngd/extra/ippool.c:342-389 | in every run a pool hands its items out in the order in which they were generated or given back |
| AddressPools.VisitedOnce | micro-bngd/extra/ippool.c:356-380 | a chain that ends, or comes back to its start, is walked without meeting a pool twice |
| AddressPools.PathIsPrefix | micro-bngd/extra/ippool.c:356-380 | a search never leaves the chain nor runs past its end |
| AddressPools.SeenWasEmpty | micro-bngd/extra/ippool.c:356-380 | in every run each pool a search has given up was empty at a visit of that search |
| AddressPools.FailureIsComplete | micro-bngd/extra/ippool.c:356-380 | in every run a search that fails has been through the whole chain, each pool once, and has found each of them empty at its own visit |
| AddressPools.FreshStart | micro-bngd/extra/ippool.c:214-292 | pools as they are generated, with no session yet, are where every such run can begin |
| AddressPools.Get | micro-bngd/extra/ippool.c:342-380 | undisturbed, it takes the first item of the first pool that has one, and fails only if all are empty |
| Ipv6Pool.Add | micro-bngd/extra/ipv6pool.c:66-75 | the byte loop adds 128-bit numbers modulo 2^128 |
| Ipv6Pool.Cmp | micro-bngd/extra/ipv6pool.c:77-89 | the byte loop compares 128-bit numbers |
| Ipv6Pool.EndIs | micro-bngd/extra/ipv6pool.c:132-138 | the address filled with host bits, in one word or both, is the last of the network that holds it |
| Ipv6Pool.StepIs | micro-bngd/extra/ipv6pool.c:140-144 | the step is 2^(128 - prefix length) |
| Ipv6Pool.Generate | micro-bngd/extra/ipv6pool.c:124-198 | below the top of the address space it terminates and lists, ascending, every address from the base to the network's end at that step |
| Ipv6Pool.PoolTiled | micro-bngd/extra/ipv6pool.c:124-198 | from an aligned base there are exactly 2^(prefix length - mask) networks and every address of the pool lies in exactly one |
| Ipv6Pool.TopHasNoBeyond | micro-bngd/extra/ipv6pool.c:146 | there is an address beyond the end if and only if the network is not the last there is |
| Backup.Commit | micro-bngd/backup/backup_file.c:53-135 | the gathered writes and the digest taken piece by piece make the file of the saved modules, if and only if no buffer is put beyond the vector |
| Backup.Restore | micro-bngd/backup/backup_file.c:214-292 | a file of another version, or whose last sixteen bytes are not the digest of the rest, is turned away, and any other is read; one too short for its digest leads astray |
| Backup.Layout | micro-bngd/backup/backup_file.c:79-121 | where every byte of a file of one module with one tag stands |
| Backup.RoundTrip | micro-bngd/backup/backup_file.c:79-292 | a committed file is genuine, and an internal restore gives back the saved modules and tags in order if and only if module identifiers are at most 255 and tag identifiers from 1 to 255 |
| BackupHidden.HiddenNeverMatters | micro-bngd/backup/backup_file.c:79-292 | a restore that is not internal gives exactly the other tags whatever the internal ones hold, if and only if their identifiers are from 1 to 255, module identifiers at most 255 and internal identifiers no multiples of 256 |
| BackupHidden.HealedByChance | micro-bngd/backup/backup_file.c:267-291 | one content of such an internal tag with which the others come back all the same |
| Backup.ModulesAtGood | micro-bngd/backup/backup_file.c:267-291 | whatever a file holds, the tags read from it have identifiers from 1 to 255 |
| Backup.CommitAndRestore | micro-bngd/backup/backup_file.c:53-292 | what the writer commits with MD5 the reader restores |
| Backup.ReadTags | micro-bngd/backup/backup_file.c:273-291 | the parse loop over tags, with the skip of internal ones |
| Backup.FitsExactly | micro-bngd/backup/backup_file.c:79-121 | a commit stays inside its vector if and only if the numbers of tags never make a module but the last put a buffer of its own where the flush waits for a tag |
| Backup.Overrun | micro-bngd/backup/backup_file.c:79-121 | a first module of 1019 tags, or any multiple of 1022 more, and another module overrun it |
| Backup.ZeroIdEnds | micro-bngd/backup/backup_file.c:274-277 | a tag whose identifier has a zero low byte reads as the end of its module |
| Backup.Writer.PutTag | micro-bngd/backup/backup_file.c:94-113 | a tag is gathered and hashed, and a vector of that length is written out |
| Pptp.PackRoundTrip | drivers/pptp/pptp.c:432-446 | for every frame of at least 3 bytes with a legal protocol number and every setting, unpacking gives the frame back if and only if it is not mistaken for an addressed one |
| Pptp.PackSays | drivers/pptp/pptp.c:432-446 | LCP packets with codes 1 to 7 go out whole under every setting; of the others the compressions drop exactly what they are for |
| Pptp.Endpoint.Xmit | drivers/pptp/pptp.c:432-479 | sending builds the packet, of which PptpPair.PacketSays says what it holds, and advances seq_sent and ack_sent |
| PptpPair.PacketSays | drivers/pptp/pptp.c:448-479 | flags, protocol, length, call, number, and the number received last if and only if it was not acknowledged before |
| PptpPair.AckArrives | drivers/pptp/pptp.c:448-597 | the receiver's ack_recv becomes the sender's seq_recv if that is newer, over a wrap too, and stays otherwise |
| PptpPair.AckNeverBack | drivers/pptp/pptp.c:585-597 | whatever arrives, ack_recv goes back over a wrap alone |
| PptpPair.AcksAreTrue | drivers/pptp/pptp.c:432-673 | in every run of two ends over wires that keep the order and lose at will, across wraps, what one holds for acknowledged the other has taken, and what that has taken was sent |
| PptpPair.ThereAndBack | drivers/pptp/pptp.c:432-673 | a frame there and a frame back leave the first acknowledged, across wraps |
| Pptp.Endpoint.Rcv | drivers/pptp/pptp.c:585-673 | receiving updates ack_recv and seq_recv and delivers the unpacked payload, as modelled; a packet without the header its flags announce, or whose payload ends before the bytes that are looked at, leads astray |
| Pptp.TakenIff | drivers/pptp/pptp.c:622 | a number is taken if and only if it is above the last taken and no straggler from before a wrap, or the last taken is 2^32 - 1 |
| Pptp.InTurn | drivers/pptp/pptp.c:432-673 | a packet received in its turn delivers the frame that was sent |
| Pptp.StreamArrives | drivers/pptp/pptp.c:432-673 | packets received in order deliver the frames sent, in order, across wraps |
| Pptp.AfterLoss | drivers/pptp/pptp.c:622 | after any losses, however many, a packet in order is taken if and only if its number is above the last one taken, or that was 2^32 - 1, and it does not look like a straggler; and when its number is above |
| Pptp.EchoIff | drivers/pptp/pptp.c:432-631 | a frame sent is recognised as an echo if and only if it is an LCP echo request or reply and address compression is off |
| Pptp.Arrives | drivers/pptp/pptp.c:585-673 | a packet delivers its frame if and only if its number is taken or it is an echo, and moves seq_recv if and only if its number is taken |
| Pptp.NeverBehind | drivers/pptp/pptp.c:585-673 | on a packet the other end has sent the driver never reads behind its end |
| Pptp.LossyStream | drivers/pptp/pptp.c:432-673 | over any run with any losses exactly the frames in packets taken, and late echoes, are delivered |
| Pptp.Outage | drivers/pptp/pptp.c:614-673 | when the numbers have begun again without 2^32 - 1 having been taken, exactly the echoes that arrive are delivered, up to 2^32 packets after the last one taken |
| Pptp.Silence | drivers/pptp/pptp.c:432-631 | with address compression there is no echo among them |
| Pptp.NextThrough | drivers/pptp/pptp.c:622 | the next packet that is taken is the one 2^32 + 1 after it, and no earlier one |
| Pptp.Resumption | drivers/pptp/pptp.c:622 | from there on the frames come through again |
| Pptp.NumbersRise | drivers/pptp/pptp.c:585-673 | under any reordering, duplication and loss the numbers taken rise, until 2^32 - 1 |
| Pptp.NoneTwice | drivers/pptp/pptp.c:585-673 | so none is taken twice before that |
| HashTable.Table.Insert | micro-bngd/myhashtable.c:621-690 | refines map insertion; other data already there is kept when nothing releases data, and replaced otherwise |
| HashTable.Table.Free | micro-bngd/myhashtable.c:744-789 | refines map removal |
| HashTable.Table.Get | micro-bngd/myhashtable.c:867-901 | refines map lookup |
| HashTable.Table.Search | micro-bngd/myhashtable.c:637-664 | a key is found in its own chain or nowhere |
| HashTable.Table.Apply | micro-bngd/myhashtable.c:1126-1163 | the traversal visits elements in bucket order until a callback stops it, and otherwise every one despite its early stop |
| HashTable.CountIsTotal | micro-bngd/myhashtable.c:1172-1211 | the chains hold every element once and the counter is their number |
| HashTable.ChainCut | micro-bngd/myhashtable.c:757-768 | unlinking a node, at the head or behind another, leaves the chain of the others |
| HashTable.RoundUpLeast | micro-bngd/myhashtable.c:99-106 | any size from 1 to 2^32 is rounded up to the least power of two not below it |
| IpoeThrottle.Worker.Handle | drivers/ipoe/ipoe.c:595-624 | a packet passes only when its address has no stamp within the rate and is dropped only when the last pass of its address reads as within it, and what is dropped leaves no trace; afterwards exactly the addresses known before and this one are known; hash and age list keep the same entries, one per address, in order of age |
| IpoeThrottle.Worker.Expire | drivers/ipoe/ipoe.c:678-687 | forgets only entries past the timeout and leaves the oldest reading as within it; all that is left is younger exactly unless an age has wrapped |
| IpoeThrottle.Worker.Process | drivers/ipoe/ipoe.c:595-702 | over any run two passing packets of one address are at least IPOE_RATE_U ms apart, every queued address without an entry has a packet that passes, and what is left is within the timeout from run to run as long as the timer, or a packet, wakes the worker within 2^32 ms less the timeout |
| IpoeThrottle.Worker.Lookup | drivers/ipoe/ipoe.c:539-550 | finds the entry of an address if and only if there is one |
| IpoeThrottle.SoundStamp | drivers/ipoe/ipoe.c:620-624 | stamping an entry and moving it to the end keeps the order of age and the spacing of passes |
| IpoeThrottle.SoundExpire | drivers/ipoe/ipoe.c:678-687 | forgetting the oldest entry past the timeout keeps the spacing of passes |
| Base32.RoundTrip | micro-bngd/base32.c:37-91 | for every byte string, decoding its encoding, with or without padding, gives it back |
| Base32.Encode | micro-bngd/base32.c:37-62 | the loops with the 32-bit accumulator give the five-bit groups of the input as letters, and the padding |
| Base32.EncodingSize | micro-bngd/base32.c:32-35 | the encoded length is what the size function promises |
| Base32.Decode | micro-bngd/base32.c:73-91 | the loop writes the whole bytes among the leading symbols and rejects exactly at a byte that is none |
| Base32.NeverBeyond | micro-bngd/base32.c:64-91 | on any input the decoder writes no more bytes than the size function promises |
| Base32.GiveOut | micro-bngd/base32.c:41-48 | what the overflowing accumulator gives out are the next bits of the whole input |
| Base32.LetterIs | micro-bngd/base32.c:15 | the letters are the alphabet of RFC 4648 |
| Base32.SingleByte | micro-bngd/base32.c:37-62 | "f" is MY======, as a test vector of the RFC says |
| Base32.TakenForSymbol | micro-bngd/base32.c:16-30 | a byte is taken for a symbol if and only if it is in the alphabet or above 128 |

## Left out

- Sessions: except in SessionOverlap the calls of one session are taken to run one at a time in its own context, activation at most once and only while starting, as the callers do; a context that waits takes no step until woken. Cancelling a shutdown is not modelled.
- Session fields are updated by steps on values rather than in an object; the two teardown callbacks of the control layer, and the termination of a session that was told to terminate, are steps that may come at any time.
- Weak-key checks, key sizes, triple DES and the table-driven permutations, which this build does not select; MD4, which has the shape of MD5.
- ConnLimit.Limiter.Check: one call is one step, so the unlocked gap between scan and insertion is not modelled; the counter of an entry is unbounded.
- IpPool.Generate: memory exhaustion is not modelled; the random bytes are any stream.
- AddressPools.AlwaysConserved: a chain that loops without returning to the start is excluded where a whole path is asked for, as the search never ends there.
- Backup.Commit: short writes and file errors are not modelled; nothing is said of what the program does once a buffer is put beyond the vector.
- Backup.Restore: nothing is said of what the program does with a file of 1 to 15 bytes that begins with the right version, whose digest it seeks before the beginning.
- Pptp.Endpoint.Rcv: nothing is said of what the driver makes of a packet behind which it reads on, because the header its flags announce or the first bytes of its payload are not there; in a series such a packet is taken to deliver nothing.
- HashTable.Table.Insert: keys are numbers, node counts are unbounded, and each call is one step; destruction of a table is not modelled.
- IpoeThrottle.Worker.Process: report messages to user space are not modelled; entries are named by numbers instead of addresses in memory.
- Base32: the accumulator's overflow is taken to wrap.
- The prefix pool of IPv6 has the same generator as the address pool and is not modelled twice; parsing of ranges and prefixes is left out.
- Network plumbing, kernel session management, command line, PPP authentication, RADIUS, logging and configuration.
