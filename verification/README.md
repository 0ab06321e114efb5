# STUNTMAN, verified in Dafny

STUNTMAN is a STUN server and client; this repository adds a peer-to-peer file transfer to it. The
project models its protocol core and proves what that core is for. `dafny verify dfyconfig.toml` checks
everything.

Each component has a model on values, about which theorems over all inputs or all runs are proved, and,
where the source works in place, a class or method with the source's own loops and fields whose contract
says that it does what the model says.

- **CRC** (`Bits`, `Crc`, `CrcEngines`, `Polynomials`). Words are bit sequences. The bitwise, the table-driven
  and the augmented-message computation of boost/crc.hpp are related for every width, polynomial, reflection
  and message, shown to give the remainder of polynomial division, and to detect every burst up to their
  width; CRC-32 is an instance.
- **FastHash** (`Chains`, `HashModel`, `HashRuns`, `HashMaps`, `FastHash`, `SocketTables`, `Primes`). Linked
  chains, free list and the circular side index, in arrays; together a map from key to stack of values, with
  an index that lists exactly what the stacks hold.
- **Codec** (`Wire`, `Incremental`, `Stream`, `StunReader`, `StunBuilder`, `Sealing`, `Addresses`,
  `Fingerprints`, `Integrity`, `MessageBytes`, `AttributeTable`). Sections 6 and 15 of RFC 5389 and the legacy format of RFC 3489: round trip,
  independence from chunking, exact acceptance octet by octet, and agreement of the one who seals with the one
  who checks.
- **Request handler** (`Handler`, `Admission`, `Replies`, `RequestHandler`). Section 6.1 of RFC 5780: who is let
  in, which answer, from which socket, and that the sender can read it.
- **Discovery client** (`Discovery`, `DiscoveryRuns`, `ClientLogic`). Sections 4.3 and 4.4 of RFC 5780:
  verdicts and their evidence, retransmission, termination. `EndToEnd` puts client and handler together,
  `Nats` and `NatRuns` put a NAT with any mapping and filter between them, and `LossyNats` a network that
  loses, delays and repeats.
- **File transfer** (`FileBlocks`, `Datagrams`, `FileTransfer`, `FileProgress`, `FilePeers`). Two peers and the
  sending thread, over a network in which a datagram may arrive late, often or never.
- **CPoll** (`Poll`, `PollRuns`, `PollCounts`, `Polling`). Swap-with-last removal, rotation and the unread count.
- **TCP thread** (`Connections`, `Outcomes`, `Tcp`, `TcpSafety`, `TcpRuns`, `TcpBounds`, `TcpOverPoll`,
  `TcpOutcomes`, `TcpInterests`, `TcpCounts`, `SweptEvents`, `TcpServer`, `TcpAnswers`). The connection pool, the two tables a sweep swaps, and each connection's life, for any
  results of recv, send, accept and the poller.
- **Checks** (`Checksum`, `Arithmetic`). Section 1 of RFC 1071.

## Where the code differs from what one would assume

- `CPoll::Remove` leaves the count of unread events as it is, so the assertion in `WaitForNextEvent` can fail
  (`PollCounts.AssertionCanFail`); `PollCounts.CountIsExactUpToRemovals` says exactly when. The TCP thread does
  reach that point when a sweep closes a connection between poll() and the report of its event
  (`SweptEvents.ThreadFailsAssertion`, and exactly when: `TcpCounts.AssertionHoldsIff`).
- `CPoll::Add` ignores a full table; `Poll.AddKeeps` gives the exact condition.
- The reader's comment says that a fingerprint which is not last is rejected; it is not
  (`Fingerprints.NonFinalFingerprintPasses`).
- The file is requested once and no datagram of the handshake is sent again, so one loss can stop a transfer;
  `FileProgress.FinishesIffAlive` says exactly when.
- A repeated last block makes the file receiver announce completion again; it is announced as often as that
  block arrives (`FileProgress.CompletionsAreLastDeliveries`). An empty file is never transferred.
- With both tests requested, the mapping test writes to the alternate host before the filtering test probes it,
  so an address-dependent filter with endpoint-independent mapping is taken for an open one
  (`NatRuns.FilterIsMissed`, and exactly when: `NatRuns.NatIsRecognised`).
- The comment in `AddErrorCode` speaks of padding with spaces; the code pads with zeros, and so does the model.
- The comment above `FastHash_GetHashTableWidth` speaks of the highest prime; `FindPrime` gives the least one.
- The sweep interval in seconds is also passed to the poller as its timeout in milliseconds; timeouts do not
  enter the model, which lets the poller return whenever it likes.

## Model

| member | source | states |
|---|---|---|
| `CrcEngines.Reflect` | boost/crc.hpp:306-325 | Moving the lowest bit out and setting its mirror position, bit by bit, reverses the word. |
| `CrcEngines.CrcBasic.ProcessBit` | boost/crc.hpp:727-750 | One bit is one step of polynomial division of the remainder. |
| `CrcEngines.CrcBasic.ProcessBits` | boost/crc.hpp:752-770 | The low `count` bits of a byte, highest first, divide the remainder in that order. |
| `CrcEngines.CrcBasic.ProcessByte` | boost/crc.hpp:772-782 | A byte enters in the configured bit order. |
| `CrcEngines.CrcBasic.ProcessBlock` | boost/crc.hpp:784-797 | The remainder after a block is the old remainder divided by all its bits. |
| `CrcEngines.CrcBasic.GetChecksum` | boost/crc.hpp:814-823 | The checksum is the remainder in output order, with the final mask. |
| `CrcEngines.ByteRemainder` | boost/crc.hpp:499-531 | Eight in-place division steps give the remainder of a byte above zeros. |
| `CrcEngines.InitTable` | boost/crc.hpp:488-536 | Every one of the 256 slots holds the remainder of its own index, mirrored when the table is reflected. |
| `Crc.StepXor` | boost/crc.hpp:727-750 | A division step is linear over exclusive or. |
| `Crc.StepsXor` | boost/crc.hpp:727-750 | So are any number of steps. |
| `Crc.DivideByTable` | boost/crc.hpp:957-966 | Dividing by a byte's worth of bits is one shift and one exclusive or with the remainder of the top bits. |
| `Crc.FastByteIsDivide` | boost/crc.hpp:957-966 | One table step, plain or reflected, equals the bitwise division, for remainders wider and narrower than a byte; in the reflected form the remainder is the mirror image throughout. |
| `CrcEngines.CrcOptimal.ProcessBlock` | boost/crc.hpp:946-968 | The table-driven remainder stays equal to (the mirror of) the bitwise remainder over a whole block, for every width, also below a byte. |
| `CrcEngines.BasicCrc` | boost/crc.hpp:784-823 | The bit-by-bit engine computes Checksum for every parameter set and message. |
| `CrcEngines.FastCrc` | boost/crc.hpp:946-996 | The table-driven engine computes the very same Checksum. |
| `Polynomials.RemainderIff` | boost/crc.hpp:727-770 | With products and sums of polynomials over two elements defined on their own: a word of the code's width is the bitwise remainder if and only if the start value on top of the bits, and the bits followed by as many zeros, add up to a multiple of x^n + p plus that word. |
| `Polynomials.DivisionIsUnique` | boost/crc.hpp:727-750 | There is only one such quotient and one such remainder. |
| `Polynomials.ChecksumIff` | boost/crc.hpp:784-823 | For every parameter set a code is the checksum of a message if and only if it is that remainder of the transmitted bits, in output order, with the final mask. |
| `Polynomials.BurstChangesChecksum` | boost/crc.hpp:727-750 | When the polynomial has a constant term, messages whose transmitted bits differ only within as many consecutive bits as the code has get different checksums. |
| `CrcEngines.AugmentedCrc` | boost/crc.hpp:1045-1076 | The augmented-message loop computes Augment. |
| `Crc.AugmentLags` | boost/crc.hpp:1045-1076 | The plain remainder is the augmented one run a word of zero bits ahead, after every message. |
| `Crc.AugmentTail` | boost/crc.hpp:1045-1076 | Bytes that fit below the remainder are added to it after as many zero steps. |
| `Crc.AugmentedZerosIsPlain` | boost/crc.hpp:1045-1076 | The augmented form over the message and a word of zero bytes is the plain unreflected remainder, from start zero. |
| `Crc.AugmentedChecksumIsZero` | boost/crc.hpp:1045-1076 | Over the message and its own checksum the augmented form is zero. |
| `FastHash.FastHash.constructor` | common/fasthash.h:221-262 | A new table: every node on the free list, nothing stored. |
| `FastHash.FastHash.Reset` | common/fasthash.h:239-262 | Afterwards the arrays hold an empty table again. |
| `FastHash.FastHash.Find` | common/fasthash.h:99-125 | The bucket of a key, and the first node on its chain with that key, with its predecessor, or none. |
| `FastHash.FastHash.Lookup` | common/fasthash.h:351-361 | Finds something exactly when the key's stack is not empty, and then its top. |
| `FastHash.FastHash.Assign` | common/fasthash.h:351-361 | In-place assignment through the looked-up place does what HashModel.Assign says; it fails exactly when the key is absent. |
| `FastHash.FastHash.Insert` | common/fasthash.h:284-314 | In-place insertion does what HashModel.Insert says; it fails exactly when the table is full. |
| `FastHash.FastHash.UpdateIndexWithAdd` | common/fasthash.h:152-164 | A valid circular index gets the new node at its end, through wrap-around. |
| `FastHash.FastHash.UpdateIndexWithRemove` | common/fasthash.h:166-204 | Removal at the front or back keeps the circular index; anywhere else it is given up. |
| `FastHash.FastHash.Remove` | common/fasthash.h:316-349 | In-place removal does what HashModel.Remove says; it fails exactly when the key is absent. |
| `FastHash.FastHash.ReIndex` | common/fasthash.h:128-150 | Rebuilds the index from the chains, bucket by bucket. |
| `FastHash.FastHash.LookupByIndex` | common/fasthash.h:368-390 | Below the size, the item at that place of the listing, rebuilding the index first if need be; otherwise nothing. |
| `HashModel.InsertInv` | common/fasthash.h:284-314 | Chains and free list still partition all nodes, every node in the bucket its key hashes to. |
| `HashModel.InsertStack` | common/fasthash.h:284-314 | Insertion pushes on the stack of its key and touches no other stack. |
| `HashModel.RemoveInv` | common/fasthash.h:316-349 | Removal keeps the partition. |
| `HashModel.RemoveStack` | common/fasthash.h:316-349 | Removal pops the stack of its key, re-exposing the value before, and touches no other stack. |
| `HashModel.ReIndexInv` | common/fasthash.h:128-150 | Rebuilding the index keeps size, stacks and the invariant. |
| `HashModel.IndexIsBijection` | common/fasthash.h:368-390 | In every consistent state lookup by index over 0 to size - 1 meets every live node exactly once, rebuilding the index first when it was given up. |
| `HashRuns.RunRefines` | common/fasthash.h:284-390 | After any sequence of insertions, removals, writes through a lookup and lookups by index the table is a map from key to stack of values with the live count as its size; only a full table refuses. |
| `HashRuns.RunListing` | common/fasthash.h:368-390 | After any such sequence, lookup by index over 0 to size - 1 lists every value held under every key, as often as it is held. |
| `HashModel.ListingIsStacks` | common/fasthash.h:368-390 | The same in every consistent state, whether the index is valid or was given up and is rebuilt. |
| `HashModel.AssignStack` | common/fasthash.h:351-361 | A write through the place a lookup found replaces the top of the key's stack and touches no other. |
| `HashMaps.InsertIsMap` | common/fasthash.h:284-314 | Where no key is inserted twice the table is a map: insertion adds the entry, or nothing when full. |
| `HashMaps.RemoveIsMap` | common/fasthash.h:316-349 | There removal takes out exactly the entry of its key. |
| `HashMaps.ListedIsEntry` | common/fasthash.h:368-390 | There every position of the index below the size gives an entry of the map. |
| `SocketTables.SocketTable.First` | common/fasthash.h:368-390 | Looking up index 0 gives an entry as long as there is one, and changes no entry. |
| `SocketTables.SocketTable.Assign` | networkutils/polling.cpp:399-409 | The write through the pointer Lookup returned changes that one entry. |
| `HashModel.InsertionOrder` | common/fasthash.h:152-164 | With insertions only, the index lists the items in insertion order. |
| `AttributeTable.LookupFindsLast` | stuncore/stunreader.cpp:317-332 | The attribute table's lookup by kind gives the last attribute of that kind, so a recorded index and a lookup name the same one. |
| `AttributeTable.IndexIsWireOrder` | stuncore/stunreader.cpp:301-315 | Lookup by index gives wire order, and a thirty-first attribute is refused. |
| `Primes.PrimeAbove` | common/fasthash.cpp:41-59 | There is a prime above every number, the measure that makes the search end. |
| `Primes.OddIsPrimeIff` | common/fasthash.cpp:43-54 | For an odd number, no divisor from 3 to the root plus one is the same as being prime. |
| `Primes.FindPrime` | common/fasthash.cpp:22-62 | Ends, and returns the least prime that is at least `val` and at least 2. |
| `Checksum.Fold` | common/datacheck.cpp:21-24 | Folding ends with the representative of the sum modulo base minus one, zero only for zero. |
| `Checksum.DataCheck16` | common/datacheck.cpp:10-26 | The complement of the folded sum of the words, an odd byte counting as itself. |
| `Checksum.DataCheck8` | common/datacheck.cpp:28-41 | The same for bytes. |
| `Checksum.Check16IsComplement` | common/datacheck.cpp:10-26 | The complement of the check is congruent to the word sum modulo 65535 and zero only for a zero sum. |
| `Checksum.OneByteChangesCheck16` | common/datacheck.cpp:10-26 | Any other byte in one place changes the sixteen-bit check. |
| `Checksum.OneByteChangesCheck8` | common/datacheck.cpp:29-42 | And the eight-bit one, except exactly when 0 and 255 change places beside a byte that is not zero. |
| `Checksum.Check8IsComplement` | common/datacheck.cpp:28-41 | The same modulo 255. |
| `Checksum.AppendedCheck16` | common/datacheck.cpp:10-26 | Even-length data with a word appended checks to zero if and only if the word is the check of the data, or all ones where that check is zero. |
| `Stream.DataStream.Write` | stuncore/datastream.cpp:138-169 | Overwrites at the position and extends; refused only when growth is needed and not allowed. |
| `Stream.DataStream.Grow` | stuncore/datastream.cpp:84-131 | Afterwards there is room; the attached buffer is replaced only when it is too small, with its bytes kept. |
| `Stream.DataStream.Read` | stuncore/datastream.cpp:67-82 | Reads exactly the next bytes or fails without moving. |
| `Stream.DataStream.SeekDirect` | stuncore/datastream.cpp:187-205 | Moves anywhere up to the end, and nowhere else. |
| `Stream.DataStream.SeekRelative` | stuncore/datastream.cpp:207-211 | The same, from the current position. |
| `Stream.DataStream.Attach` | stuncore/datastream.cpp:55-65 | Takes over a buffer, emptied when it is for writing. |
| `Wire.TypeRoundTrip` | stuncore/stunbuilder.cpp:55-60 | The interleaved type field gives back method and class. |
| `Wire.TypeIsField` | stuncore/stunreader.cpp:565-601 | Every type below 0x4000 is the field of the method and class read from it. |
| `Wire.BodyIsRecords` | stuncore/stunreader.cpp:609-703 | A body is parsed exactly when it is at most thirty padded records, and then into those records, each at the place of its value. |
| `Wire.ParsedInBounds` | stuncore/stunreader.cpp:641-689 | Every stored attribute lies inside the message at a four-aligned offset. |
| `Wire.PrintParse` | stuncore/stunbuilder.cpp:158-196 | Round trip: a printed message reads back with the same method, class, transaction id and attributes in wire order; legacy values with their zero padding. |
| `Incremental.AcceptedIffWellFormed` | stuncore/stunreader.cpp:541-703 | A message is accepted exactly when the header checks pass, it has the announced length and its body is at most thirty padded records of at most 780 bytes each. |
| `MessageBytes.AcceptedIffBytes` | stuncore/stunreader.cpp:541-703 | Octet by octet: accepted exactly when the first octet is below 64, the fourth is a multiple of four, the length announced is at most 800 and is that of the rest, the cookie is there unless it may be missing, and the rest falls into at most thirty padded records of at most 780 bytes. |
| `MessageBytes.AcceptedAsBytes` | stuncore/stunreader.cpp:541-607 | What is read from the octets: method, class, length and transaction id, and kind, size and place of each attribute. |
| `MessageBytes.StateFromBytes` | stuncore/stunreader.cpp:705-773 | Whatever the chunks: which octets so far leave the reader in which state. |
| `Outcomes.StateIs` | stuncore/stunreader.cpp:69-84 | An unfinished reader asks for the bytes up to the end of the header, then up to the end the header announces. |
| `Incremental.AcceptedInBounds` | stuncore/stunreader.cpp:641-689 | Every attribute of an accepted message lies inside it, four-aligned. |
| `Incremental.ChunkingIsIrrelevant` | stuncore/stunreader.cpp:705-773 | The outcome, and when it is not an error every field, depends on the bytes fed and never on how they were cut. |
| `Incremental.AsksForSome` | stuncore/stunreader.cpp:69-84 | Until the outcome is final the reader asks for at least one byte and at most 800; afterwards for none. |
| `Incremental.ObedientNeverOverfeeds` | stuncore/stunreader.cpp:69-84 | Who feeds at most what is asked for never feeds past the message. |
| `StunReader.StunMessageReader.AddBytes` | stuncore/stunreader.cpp:705-773 | The in-place reader does what Incremental.Feed says. |
| `StunReader.StunMessageReader.ParseHeader` | stuncore/stunreader.cpp:541-607 | Succeeds exactly on a valid header, and records its parts. |
| `StunReader.StunMessageReader.ReadBody` | stuncore/stunreader.cpp:609-703 | Succeeds exactly on a well-formed body; the recorded indices are those of the last integrity and fingerprint attributes. |
| `StunReader.StunMessageReader.HowManyBytesNeeded` | stuncore/stunreader.cpp:69-84 | The number of bytes Incremental.Needed states. |
| `StunReader.StunMessageReader.ValidateMessageIntegrity` | stuncore/stunreader.cpp:138-237 | True exactly when IntegrityValid holds: the attribute is last, or last before a fingerprint, and its value is the hash of the bytes before it under the adjusted length. |
| `StunReader.StunMessageReader.IsFingerprintAttributeValid` | stuncore/stunreader.cpp:92-131 | True exactly when FingerprintValid holds. |
| `StunBuilder.StunMessageBuilder.AddHeader` | stuncore/stunbuilder.cpp:48-67 | Appends the type field and a zero length. |
| `StunBuilder.StunMessageBuilder.AddAttribute` | stuncore/stunbuilder.cpp:158-196 | Appends header, value and zero padding for every 16-bit size; for values the reader takes, exactly the bytes of the attribute's record in either mode. |
| `StunBuilder.StunMessageBuilder.AddErrorCode` | stuncore/stunbuilder.cpp:212-263 | Appends the error attribute for codes 300 to 600, nothing otherwise. |
| `StunBuilder.StunMessageBuilder.AddMappedAddressImpl` | stuncore/stunbuilder.cpp:366-391 | Appends an attribute whose value encodes the address. |
| `StunBuilder.StunMessageBuilder.FixLengthField` | stuncore/stunbuilder.cpp:570-593 | Sets the length field to what follows the header and changes nothing else. |
| `StunBuilder.StunMessageBuilder.AddMessageIntegrity` | stuncore/stunbuilder.cpp:469-507 | Leaves the message sealed as Sealing.SealIntegrity states. |
| `StunBuilder.StunMessageBuilder.AddFingerprint` | stuncore/stunbuilder.cpp:413-451 | Leaves the message sealed as Sealing.SealFingerprint states. |
| `Sealing.PrintAccepted` | stuncore/stunreader.cpp:705-773 | Every printed message is accepted, with its attributes where they were written. |
| `Sealing.ComputeFingerprint` | stuncore/stunbuilder.cpp:436-441 | The table-driven CRC, masked, is the fingerprint the reader recomputes. |
| `Sealing.FingerprintAgrees` | stuncore/stunreader.cpp:92-131 | A message finished with a fingerprint is accepted and its fingerprint validates. |
| `Sealing.IntegrityAgrees` | stuncore/stunreader.cpp:138-237 | A message finished with an integrity attribute is accepted and validates under the same key, whatever came before it. |
| `Sealing.SealedBothAgree` | stuncore/stunreader.cpp:138-237 | With a fingerprint after it both validate: undoing the eight bytes of length gives back the hashed text. |
| `Fingerprints.FinalFingerprintIff` | stuncore/stunreader.cpp:92-131 | With a four-byte fingerprint as last attribute the check passes if and only if the message is what the builder writes around the bytes before it. |
| `Fingerprints.FingerprintIff` | stuncore/stunbuilder.cpp:413-451 | Bit by bit: the fingerprint is the remainder of the bytes by the 32-bit polynomial, the first 32 bits inverted, given out last bit first, inverted and masked with the letters STUN. |
| `Fingerprints.PolynomialIs` | stuncore/stunbuilder.cpp:413-451 | That polynomial has exactly the exponents 32, 26, 23, 22, 16, 12, 11, 10, 8, 7, 5, 4, 2, 1 and 0. |
| `Fingerprints.DamageIsRefused` | stuncore/stunreader.cpp:92-131 | When a final fingerprint passes, no message that differs from it within 32 consecutive bits in front of the fingerprint passes. |
| `Integrity.IntegrityIff` | stuncore/stunreader.cpp:138-237 | An accepted message passes under a key if and only if the key is not empty and its last MESSAGE-INTEGRITY of 20 bytes ends the message, or is followed by a final FINGERPRINT alone, and holds the hash of the octets in front of it, the length field reduced by eight in the second case. |
| `Fingerprints.NonFinalFingerprintPasses` | stuncore/stunreader.cpp:103-104 | A fingerprint that is not last is not refused, whatever the comment says: for every message, one with a further attribute after it that passes. |
| `Addresses.SameIsEqual` | stuncore/socketaddress.cpp:229-259 | Comparing family, IP and port is comparing addresses. |
| `Addresses.MaskedTwice` | stuncore/socketaddress.cpp:180-210 | Masking with the same transaction id twice gives the address back. |
| `Addresses.MaskFlips` | stuncore/socketaddress.cpp:180-210 | In port and IP exactly those bits change that are set in the same byte of the transaction id. |
| `Addresses.SampleMask` | stuncore/socketaddress.cpp:180-210 | 192.0.2.1 port 32853 is sent as 00 01 A1 47 E1 12 A6 43, as section 2.2 of RFC 5769 has it. |
| `Addresses.ApplyStunXorMap` | stuncore/socketaddress.cpp:180-210 | The in-place loop turns port and IP into those of Masked. |
| `Addresses.AddressRoundTrip` | stuncore/stunutils.cpp:33-71 | Reading the value written for an address gives the address, for IPv4 and IPv6. |
| `Handler.AnswersFromOwnSocket` | stuncore/messagehandler.cpp:247-272 | An answer leaves from a role the server has, if the request came in on one. |
| `Handler.OtherIsOpposite` | stuncore/messagehandler.cpp:284-301 | OTHER-ADDRESS is announced exactly when all four sockets exist and the opposite one is known, and is then the diagonally opposite address whatever change was asked for. |
| `Replies.AnswerFits` | stuncore/messagehandler.cpp:39-75 | Every answer is between 20 and 200 bytes long. |
| `Replies.FindPrinted` | stuncore/stunreader.cpp:317-332 | A lookup by kind in a printed message gives the last value written under it. |
| `Replies.AnswerIsReadable` | stuncore/messagehandler.cpp:77-199 | Every answer is accepted by a reader, with the request's transaction id and the right method and class; a success tells the sender its own address plainly and masked, and validates under the key that cleared the request. |
| `Admission.SucceedsIff` | stuncore/messagehandler.cpp:77-157 | A request succeeds if and only if it is a Binding request whose reply is not redirected from a connection, there is no provider or it says Allow or AllowConditional with the integrity valid under its key, padding does not meet a response port, and the socket asked for exists; the answer comes from that socket and is sealed with that key. |
| `Admission.RefusedWith` | stuncore/messagehandler.cpp:77-157 | Otherwise the refusal is 438 for a stale nonce, 401 for an unauthorized or unproven sender, both with the provider's realm and nonce, and 400 in every other case; only what is not a request gets no answer. |
| `Admission.RefusalIsReadable` | stuncore/messagehandler.cpp:159-199 | A reader of the refusal's bytes finds that code and, for 401 and 438, that nonce and realm. |
| `Admission.TextIs` | stuncore/stunreader.cpp:520-538 | The credentials given to the provider are the last attributes' bytes up to the first zero, or nothing when longer than 64 bytes. |
| `Admission.OriginIs` | stuncore/messagehandler.cpp:303-317 | The origin announced is the sending socket's configured address, or the one the request arrived on. |
| `Admission.OriginIsReadable` | stuncore/messagehandler.cpp:320-347 | The client reads that origin in the answer's bytes. |
| `Admission.AddressesAreReadable` | stuncore/messagehandler.cpp:320-347 | And the mapped address, the masked one and the opposite socket, each under the attribute kind of the format the request came in. |
| `Admission.ReplyGoesTo` | stuncore/messagehandler.cpp:97-118 | The reply goes to the sender, at the response port if one was asked for over UDP. |
| `RequestHandler.BuildErrorResponse` | stuncore/messagehandler.cpp:159-199 | The caller's buffer then holds the printed refusal. |
| `RequestHandler.BuildBindingResponse` | stuncore/messagehandler.cpp:202-363 | The caller's buffer then holds the answer, sealed if a key cleared the request. |
| `RequestHandler.ProcessRequest` | stuncore/messagehandler.cpp:39-157 | Answers exactly the requests Decide answers, into the buffer supplied, which is never replaced, for the role and destination it decides. |
| `Discovery.Shrinks` | stuncore/stunclientlogic.cpp:147-213 | Each turn of the loop that does not end the call uses up a test or its last attempt. |
| `Discovery.ReadResponse` | stuncore/stunclienttests.cpp:69-89 | Addresses read from a response are well-formed. |
| `EndToEnd.MaskedAddressWins` | stuncore/stunclienttests.cpp:150-156 | From any response the client learns the masked address, of the standard kind before the optional one, and the unmasked one only when there is neither. |
| `ClientLogic.StunClientLogic.constructor` | stuncore/stunclientlogic.cpp:68-137 | New test objects for the requested tests in order, sharing one record of results; together the beginning of a run. |
| `ClientLogic.StunClientLogic.NextMessage` | stuncore/stunclientlogic.cpp:139-217 | Over the test objects the loop ends and does what the model says; results are announced exactly when all tests are passed, and then whatever can be known is decided, every verdict resting on its evidence. |
| `ClientLogic.StunClientLogic.HandleResponse` | stuncore/stunclientlogic.cpp:219-239 | Only the current test's object and the shared results change, as the model says; every verdict still rests on its evidence. |
| `DiscoveryRuns.BindingBase` | stuncore/stunclienttests.cpp:139-189 | A binding response completes its test and keeps every verdict grounded. |
| `DiscoveryRuns.BehaviorBase` | stuncore/stunclienttests.cpp:265-310 | A mapping verdict drawn from a response agrees with the mappings recorded. |
| `DiscoveryRuns.TimeoutBase` | stuncore/stunclienttests.cpp:422-434 | Silence completes a test and draws a conclusion only where the evidence allows it. |
| `DiscoveryRuns.CheckedBase` | stuncore/stunclienttests.cpp:207-220 | What the early check decides without a request rests on the client being direct. |
| `ClientLogic.Rebuild` | stuncore/stunclientlogic.cpp:108-137 | When one test object moves with the client, the set of completed tests and the transaction ids of all objects together are the client's. |
| `DiscoveryRuns.VerdictsAreSound` | stuncore/stunclienttests.cpp:139-434 | In every run each success flag says whether there is a verdict, each verdict rests on its evidence, a failed binding leaves all unknown; at the end filtering is decided whenever it can be. |
| `DiscoveryRuns.RetransmissionIsBounded` | stuncore/stunclientlogic.cpp:147-213 | In every run, for any clock values, each test sends at most the configured number of requests, with one transaction id, the timeout apart on the 32-bit clock. |
| `DiscoveryRuns.ElapsedIsReal` | stuncore/stunclientlogic.cpp:183-185 | The wrapping difference is the time that passed, if it is less than the clock counts. |
| `DiscoveryRuns.ReadyIsFinal` | stuncore/stunclientlogic.cpp:139-239 | Once asking has been answered with the results, no further calls change anything. |
| `EndToEnd.ClientLearnsItsAddress` | stuncore/stunclienttests.cpp:139-189 | From a successful answer to its request a client reads the address the request came from and the server's opposite address. |
| `EndToEnd.DirectIffUntranslated` | stuncore/stunclienttests.cpp:139-189 | After that answer the client calls itself direct exactly when its own address is the one the server saw. |
| `EndToEnd.TestIsAnswered` | stuncore/stunclienttests.cpp:358-388 | Between client and server, byte for byte: every test's request is answered from the socket that test probes. |
| `NatRuns.NatIsRecognised` | stuncore/stunclienttests.cpp:139-434 | Behind a NAT with any mapping function and any filter, in every run: the mapping verdict is the one the NAT's translations towards the three sockets call for, and the filtering verdict is true if and only if there is no filter, or the client is not direct and the mapping test did not write through the same mapping to where the filtering test is answered from. |
| `NatRuns.RunsEnd` | stuncore/stunclientlogic.cpp:147-213 | Asked often enough and not before the timeout, the client arrives at its results. |
| `NatRuns.ExchangeTracks` | stuncore/stunclienttests.cpp:139-434 | Each exchange keeps everything the client has recorded true of the NAT. |
| `NatRuns.FilterIsMissed` | stuncore/stunclienttests.cpp:139-434 | A world and a run in which an address-dependent filter is called endpoint-independent. |
| `Nats.ClassesAreNamed` | stuncore/stunclienttests.cpp:207-310 | For endpoint-independent, address-dependent and address-and-port-dependent mappings as RFC 4787 defines them the verdict is that name, and the mapping test opens the filter exactly when the mapping is endpoint-independent and the filter goes by host. |
| `LossyNats.LossesDoNotMislead` | stuncore/stunclienttests.cpp:139-434 | With requests and answers lost, late, repeated and out of order, in every run with distinct transaction ids: the address learned is the NAT's, every mapping verdict given is the true one, and no filter is called more open than in an undisturbed run. |
| `LossyNats.EventKnows` | stuncore/stunclientlogic.cpp:139-239 | Every request and every arrival, of whichever test and however late, keeps what the client has recorded true of the NAT. |
| `LossyNats.ExchangeIsRun` | stuncore/stunclientlogic.cpp:139-239 | An undisturbed exchange is such a run of at most two events. |
| `Nats.KindsExist` | stuncore/stunclienttests.cpp:139-434 | There is a world of every mapping and filtering kind. |
| `FileBlocks.SplitJoin` | client/SharedFileBuffer.cpp:32-53 | The blocks of a file, joined, are the file. |
| `FileBlocks.SplitShape` | client/SharedFileBuffer.cpp:32-53 | Blocks are numbered in order, each of 4096 bytes but the last, which is not empty and no longer. |
| `FileBlocks.SharedFileBuffer.LoadFileToBuffer` | client/SharedFileBuffer.cpp:32-53 | The read loop produces exactly those blocks. |
| `Datagrams.DecodeEncodes` | client/clientmain.cpp:609-638 | Every datagram the code may emit for a message, whatever is in its unused bytes, is understood as that message. |
| `FilePeers.FileReceiver.OnDatagram` | client/clientmain.cpp:829-897 | From the bytes of a datagram to the bytes of the answer: the state moves as the protocol says, and the answer encodes the protocol's reply. |
| `FilePeers.Classify` | client/clientmain.cpp:794-910 | The chain of string comparisons on the ten-byte fields recognises exactly the protocol's messages. |
| `FilePeers.FileReceiver.OnConnected` | client/clientmain.cpp:794-803 | The file is requested exactly once, by a datagram that is understood as the request for that name. |
| `FileTransfer.ReceiverEnds` | client/clientmain.cpp:870-897 | Any true message keeps the receiver's file a prefix of the blocks, and its acknowledgement names a written block. |
| `FilePeers.FileSender.OnDatagram` | client/clientmain.cpp:804-911 | From bytes to bytes, with the file loaded by its own loop: the state moves as the protocol says, and the answer encodes the reply. |
| `FileTransfer.ReadInv` | client/clientmain.cpp:640-654 | The sending thread's look at the shared position, whenever it comes, keeps the protocol's invariant. |
| `FilePeers.FileSender.SendSectorData` | client/clientmain.cpp:609-638 | The bytes sent decode to the block at the position seen earlier, with its number and data. |
| `FileTransfer.NextInv` | client/clientmain.cpp:794-910 | Every step of either peer, and every loss, keeps the protocol's invariant. |
| `FileTransfer.TransferIsSafe` | client/clientmain.cpp:849-910 | In every run over a network that loses, repeats and reorders, the receiver's file is blocks 0 to w-1, in order, of the file of the name it asked for, with p <= w <= p+1; only written blocks are acknowledged; a stopped sender or an announced completion means the whole file is there. |
| `FileProgress.FinishesIffAlive` | client/clientmain.cpp:640-654 | After any run, with any losses, it can still be completed if and only if the file is not empty and the sending thread has started, or the file was not asked for yet, or a datagram of the handshake is on its way. |
| `FileProgress.LostRequestStops` | client/clientmain.cpp:794-803 | Losing the one request stops every transfer for good. |
| `FileProgress.EmptyNeverStarts` | client/clientmain.cpp:818-822 | The transfer of an empty file never starts. |
| `FileProgress.AnnouncesIffLast` | client/clientmain.cpp:893-896 | A step announces completion if and only if it delivers the last block. |
| `FileProgress.CompletionsAreLastDeliveries` | client/clientmain.cpp:893-896 | In every run completion is announced exactly as often as the last block is delivered. |
| `FileProgress.CompletionCanRepeat` | client/clientmain.cpp:893-896 | For every non-empty file a run in which it is announced more than once. |
| `Poll.AddKeeps` | networkutils/polling.cpp:354-374 | Registering a new socket keeps the table exact if and only if there is room in it. |
| `Poll.RemoveKeeps` | networkutils/polling.cpp:376-419 | Removal keeps the table exact and the unread count large enough; it succeeds exactly for a registered socket. |
| `Poll.FindKeeps` | networkutils/polling.cpp:484-522 | From any rotation an event is found exactly when one is pending. |
| `Poll.FoundInTurn` | networkutils/polling.cpp:484-522 | It is that of the first socket with one, going around from where the rotation stands. |
| `PollRuns.AddView` | networkutils/polling.cpp:354-374 | Adds exactly the one socket, with nothing pending. |
| `PollRuns.RemoveView` | networkutils/polling.cpp:376-419 | Takes out exactly the one socket; every other keeps its flags and pending events though its slot may move. |
| `PollRuns.ChangeView` | networkutils/polling.cpp:421-441 | Changes the flags of the one socket only. |
| `PollRuns.WaitView` | networkutils/polling.cpp:443-482 | A left-over event is handed out first; poll() is called exactly when none is left, and its events replace all others. |
| `PollRuns.ReportedFlags` | networkutils/polling.cpp:443-522 | The flags reported are the known ones among those the operating system gave for that socket. |
| `PollRuns.EachEventOnce` | networkutils/polling.cpp:443-522 | In every run within capacity no socket is reported twice between two calls of poll(), and when it is called again every earlier event whose socket stayed registered was reported exactly once. |
| `PollRuns.DeliveredIsRegistered` | networkutils/polling.cpp:484-522 | Only a registered socket is ever reported. |
| `PollCounts.RemoveKeepsCount` | networkutils/polling.cpp:413-414 | An exact unread count stays exact under removal if and only if the removed socket has nothing pending. |
| `PollCounts.CountIsExactUpToRemovals` | networkutils/polling.cpp:443-482 | In every run the count exceeds the pending events by the sockets removed with events pending since poll() was last called; so the assertion that it is zero holds exactly when there were none. |
| `PollCounts.AssertionCanFail` | networkutils/polling.cpp:460-464 | A run that reaches that assertion with a count of one. |
| `Polling.CPoll.Add` | networkutils/polling.cpp:354-374 | Over the hash table: succeeds exactly for a socket not registered; with room, the view gains it with nothing pending and the table stays exact. |
| `Polling.CPoll.Remove` | networkutils/polling.cpp:376-419 | Over the hash table, with the write through the looked-up place: succeeds exactly for a registered socket, and every other keeps its flags and pending events. |
| `Polling.CPoll.ChangeEventSet` | networkutils/polling.cpp:421-441 | Over the hash table: succeeds exactly for a registered socket and changes only its flags. |
| `Polling.CPoll.FindNextEvent` | networkutils/polling.cpp:484-522 | The rotating scan does what Poll.FindNextEvent says. |
| `Polling.CPoll.WaitForNextEvent` | networkutils/polling.cpp:443-482 | A left-over event is handed out first and poll() called exactly when none is left; the table stays exact. |
| `Connections.WriteOk` | server/tcpserver.cpp:619-692 | Sending in any pieces keeps what was sent a prefix of the response, and closes only after all of it. |
| `Connections.ReceiveOk` | server/tcpserver.cpp:532-617 | Receiving in any pieces keeps the reader equal to one given everything at once; when an answer is under way it is the one to exactly the message received. |
| `Connections.HandleOk` | server/tcpserver.cpp:428-463 | Handling an event keeps a connection sound or gives it up, and never moves it backwards. |
| `Outcomes.WholeReplySent` | server/tcpserver.cpp:532-692 | When recv brings the rest of an accepted message in any pieces, the handler has a reply, the poller takes both changes and send takes all of it in any pieces, the whole reply was sent and the connection is closing. |
| `Outcomes.ReceivingIs` | server/tcpserver.cpp:532-617 | From the results of recv, send, handler and poller alone: what receiving does with a message that is completed, cut off, refused or not finished. |
| `Outcomes.SendingIs` | server/tcpserver.cpp:619-692 | Exactly as much of the reply goes as send takes before it blocks or fails. |
| `Outcomes.GivenUpIff` | server/tcpserver.cpp:428-733 | Handling an event gives a connection up exactly under a stated condition on those results. |
| `TcpSafety.CloseKeeps` | server/tcpserver.cpp:735-762 | Closing takes a connection out of exactly the table it is in, releases it once and keeps everything else. |
| `TcpSafety.GetKeeps` | server/stunconnection.cpp:57-85 | Taking a connection, growing the pool if it is empty, keeps pool and tables consistent. |
| `TcpSafety.AcceptKeeps` | server/tcpserver.cpp:466-525 | Every way accepting can end keeps the invariant, with the connection in the new table or back in the pool. |
| `TcpSafety.CloseAllEmpties` | server/tcpserver.cpp:765-773 | Closing what the table's index lists empties that table and leaves the other alone. |
| `TcpSafety.TurnKeeps` | server/tcpserver.cpp:368-416 | Each turn of the loop keeps the invariant. |
| `TcpRuns.NoneLost` | server/stunconnection.cpp:57-93 | Free connections and the two tables add up to all connections ever allocated. |
| `TcpRuns.ConnectionsOnlyAdvance` | server/tcpserver.cpp:428-763 | In one turn a connection keeps socket, peer and table and moves only from receiving to transmitting to closing, sending more of the same response, or is released. |
| `TcpRuns.EveryRunIsSafe` | server/tcpserver.cpp:368-798 | In every run, with any poller and any results of recv, send and accept: each connection is in the pool, once, or under its own socket in exactly the table it names; none is lost; sent bytes are a prefix of the reply to the message received, all of it when closing; and none outlives its second sweep. |
| `TcpRuns.CleanupReturnsAll` | server/tcpserver.cpp:801-805 | Leaving the loop empties both tables; the whole pool is free. |
| `TcpBounds.ListenedExactly` | server/tcpserver.cpp:138-168 | Over an exact poller the listening sockets are registered exactly while there is room. |
| `TcpBounds.ConnectionsAreBounded` | server/tcpserver.cpp:351-421 | Over such a poller there are never more connections than allowed, and exactly the open sockets are registered. |
| `TcpOverPoll.AddMirrors` | networkutils/polling.cpp:354-374 | CPoll's Add is exact: with room, it succeeds exactly for a socket not registered. |
| `TcpOverPoll.RemoveMirrors` | networkutils/polling.cpp:376-419 | So is its Remove. |
| `TcpOverPoll.ChangeMirrors` | networkutils/polling.cpp:421-441 | So is its ChangeEventSet. |
| `TcpOverPoll.WaitMirrors` | networkutils/polling.cpp:443-482 | And it reports only sockets the thread has registered. |
| `TcpOverPoll.AcceptJoined` | server/tcpserver.cpp:466-525 | Accepting over CPoll: its Add finds room, and what follows is accepting over an exact poller. |
| `TcpOverPoll.TurnJoined` | server/tcpserver.cpp:368-416 | One turn over CPoll, with its own answers, is one turn over an exact poller that reports only registered sockets. |
| `TcpOverPoll.ThreadOverPollIsBounded` | server/tcpserver.cpp:264-265 | In every run of the thread over CPoll, whatever poll(), accept, recv and send answer: never more connections than allowed, the poller never over its capacity of that limit plus five, every slot exact, and exactly the open sockets registered. |
| `TcpCounts.HandleLeaves` | server/tcpserver.cpp:386-416 | Accepting and serving a connection, even closing it, loses no event that was not reported yet. |
| `TcpCounts.AssertionHoldsIff` | networkutils/polling.cpp:460-464 | In every run of the thread over CPoll, when poll() is about to be called again, the assertion that the unread count is zero holds if and only if since the last poll() no listening socket was unregistered at the limit and no connection was swept with its events unreported. |
| `SweptEvents.SweepFailsAssertion` | server/tcpserver.cpp:775-798 | From any reachable state with nothing left to report: when two connections due to be swept become readable in one poll(), the next turn fails the assertion, whatever recv and send answer. |
| `SweptEvents.ThreadFailsAssertion` | server/tcpserver.cpp:360-421 | Such a run from the start exists for every limit of at least two connections: two peers connect and become readable when they are swept. |
| `TcpAnswers.PeersAreAnswered` | server/tcpserver.cpp:570-608 | In every run a peer whose connection is closing has been sent one complete message with its own transaction id which, on success, tells it its own address. |
| `TcpOutcomes.TurnSendsReply` | server/tcpserver.cpp:368-421 | After a turn of the thread over CPoll that reports a peer whose request is complete, in any pieces, and who takes the whole reply, that peer has been sent it. |
| `TcpOutcomes.ReleasedIff` | server/tcpserver.cpp:368-421 | A turn releases a connection if and only if its event is reported and it is given up under that condition, or a sweep is due and it is in the old table. |
| `TcpOutcomes.SweptAfterAMinute` | server/tcpserver.cpp:775-798 | In every run with a steady clock a connection closed by a sweep was accepted at least sixty seconds before. |
| `SweptEvents.AcceptEnters` | server/tcpserver.cpp:466-525 | With room, memory and a non-blocking socket an accepted connection enters the new table. |
| `TcpInterests.SocketsAreWatched` | server/tcpserver.cpp:579-665 | In every run over CPoll each connection is watched for room to write while its reply is under way and otherwise for bytes and the end of the stream, listening sockets and the pipe for bytes. |
| `TcpServer.TcpThread.constructor` | server/tcpserver.cpp:230-293 | Two hash tables of the connection limit's size, and a state in which everything every turn keeps holds. |
| `TcpServer.TcpThread.Grow` | server/stunconnection.cpp:28-55 | At most fifty new connections in front of the free list. |
| `TcpServer.TcpThread.GetConnection` | server/stunconnection.cpp:57-85 | The first free connection, reset. |
| `TcpServer.TcpThread.ReleaseConnection` | server/stunconnection.cpp:87-93 | Back to the front of the free list; only ever for a connection that is not on it. |
| `TcpServer.TcpThread.CloseConnection` | server/tcpserver.cpp:735-762 | Does what Tcp.Close says; only ever for a connection not in the pool. |
| `TcpServer.TcpThread.ConsumeRemoteClose` | server/tcpserver.cpp:694-731 | Reads until the other end is gone or has nothing to say. |
| `TcpServer.TcpThread.WriteBytes` | server/tcpserver.cpp:619-692 | The send loop does what Connections.WriteBytes says. |
| `TcpServer.TcpThread.ReceiveBytes` | server/tcpserver.cpp:532-617 | The receive loop does what Connections.ReceiveBytes says. |
| `TcpServer.TcpThread.ProcessConnectionEvent` | server/tcpserver.cpp:428-463 | Looks in the new table, then the old, and acts by the connection's phase. |
| `TcpServer.TcpThread.AcceptConnection` | server/tcpserver.cpp:466-525 | Does what Tcp.AcceptConnection says on every path and keeps the invariant. |
| `TcpServer.TcpThread.CloseAllConnections` | server/tcpserver.cpp:765-773 | Looking up index 0 of the hash table and closing what comes up ends, with the table empty. |
| `TcpServer.TcpThread.SweepDeadConnections` | server/tcpserver.cpp:775-798 | After sixty seconds the old table is emptied and the two change places. |
| `TcpServer.TcpThread.ThreadCleanup` | server/tcpserver.cpp:801-805 | Both tables end empty. |
| `TcpServer.TcpThread.SetListenSocketsOnEpoll` | server/tcpserver.cpp:138-168 | Registers or unregisters the listening sockets, stopping at the first refusal. |
| `TcpServer.TcpThread.RunTurn` | server/tcpserver.cpp:368-416 | One turn of the loop does what Tcp.Turn says and keeps the invariant. |

## Left out

- Sockets, threads, pipes, signals, adapters and host resolution: their results are parameters.
- CEpoll: its queued batch may report sockets that were removed, so the bound on connections is stated for CPoll; everything else about the TCP thread is stated for any poller.
- HMAC-SHA1 and MD5: arbitrary functions, 20 and 16 bytes wide; the authentication provider is an arbitrary function too.
- CrcEngines.AugmentedCrc: widths below eight bits, for which the source shifts by a negative amount.
- FastHash's key hashes: an arbitrary function from key to number, so every theorem holds for the ones in the source.
- The reader keeps its attributes as the list in wire order; `AttributeTable` proves that its FastHash object is that list.
- Connections of the TCP thread are records addressed by their position among all allocated ones, not heap objects.
- Allocation failure outside the connection pool, and the initialised flags of CPoll and CDataStream.
- AddUnknownAttributes, AddPaddingAttribute and AddResponsePort of the builder: nothing sends them (the handler has a branch for the first that no error code reaches); the first leaves an odd count unpadded in RFC 5389 mode.
- StunBuilder.StunMessageBuilder.AddAttribute: null data, which keeps the caller's length in the header: no caller does it.
- Random transaction ids: any 16 bytes that begin with the cookie.
- StunReader.StunMessageReader.AddBytes: after a parse error only the state is specified, as nothing reads the other fields then.
- Discovery.Elapsed: the 32-bit clock difference is modelled exactly; attempt counters are not bounded, as they stay below the configured maximum.
- FileTransfer.TransferIsSafe: files of fewer than 2^31 blocks, the range of the index field; one sender, one receiver, one session, honest peers; the exchange that opens the connection and the deletion of the file objects after completion are not modelled.
- Registration, peer list and connection requests of the peer-to-peer client: fixed datagrams without state.
- Primes.FindPrime: unbounded numbers and an exact integer root in place of 32 bits and floating point.
- Checksum.DataCheck16: an unbounded accumulator, which a 64-bit one never tells apart for sizes that fit an int; words are little-endian.
- Command line, configuration, logging, address formatting and reference counting.
- Polling.CPoll.constructor: a poller for no sockets at all, for which the hash table is never set up.
- Nats.Exchange: the client asks from one local endpoint, and an answer the NAT admits arrives before the client is asked again; lost, late and repeated answers are the subject of `LossyNats`. The NAT's mappings and permissions do not expire.
- LossyNats.LossesDoNotMislead: transaction ids drawn for different tests are distinct, as random ids of twelve bytes are taken to be.
- Datagrams.NameIn: a name that fills all fifty bytes of its field ends there; the source reads on past its buffer.
- FilePeers.Classify: a datagram too short for the number its words announce is called unrelated; the source reads what an earlier datagram left in the buffer. No peer sends one.
