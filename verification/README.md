# Verified model of the PROXY protocol codec, the reactor and the pools

This project models four parts of the repository in Dafny and proves what they promise.

**PROXY protocol codec** (`asio_server/proxy_protocol.cpp`). Version 2 headers are created and parsed on byte
arrays with the source's 16-bit length arithmetic; version 1 lines are printed and taken apart in a 108-byte
block. `Parse`, `Walk`, `Header`, `LayoutOf` are value functions that say what the code does to a buffer and to a
`pp_info_t`, error codes included; the methods follow the code branch by branch and loop by loop, with library
calls as functions, and are proved to compute exactly these value functions. On top of them: round trips for every
header that can be created, rejection of every short burst of corruption, the lookup table against the bit-serial
CRC32c, exact and least alignment, the TLV loop against a recursive reading of the same bytes, and the inputs on
which the parser never returns. `ProxyV2Wire`, `ProxyV2Format` and `ProxyV1Format` say in literal bytes which headers
are created and what is made of the bytes of any sender. The formats are those of the HAProxy PROXY protocol
specification (sections 2.1 and 2.2), the CRC is that of Appendix B of RFC 4960.

**Reactor** (`test_epoll/lib`). `EventTable` is the map of channels and the table of poll slots as values,
`EventLoop` the same in arrays and a linked list, `Reactor` the protocol between the owner thread and any number
of other threads as a step system over all interleavings, `ReactorRefinement` what calls on the former have to do
with runs of the latter, `Buffer` the byte buffer, `ByteStream` and `TcpConnection` the output stream of a
connection.

**Pools.** `ThreadPool` (`thread_pool/thread_pool.h`) and `ConnectionPool` (`connection/src/connection_pool.cpp`)
are step systems over their monitors; every lemma about a run speaks of all interleavings.

**HTTP requests.** `Http` (`test_epoll/lib/http_server.c`, `http_request.c`) is the parser's state machine over the
buffer, with a printer as its inverse.

How to read the outcomes: `Overread`, `Overrun`, `BlockOverrun`, `OutOfBlock`, `Overflows` and `faulted` name the
places where the source reads or writes outside its memory, `NoAlignment` a division by a shifted-out power, `Aborts`
a failing assertion, `Endless` and `Spins` a loop that never ends. The model reports them where they happen and does
not follow the program any further.

What the proofs brought to light:

- A header to be padded that is already aligned, or one that passes 16 bits, overruns its block, and no other does
  (`BlockIsFilledExactly`, line 701 against line 665; `AlignedHeaderOverruns` is one). A power from 16 to 31
  divides by zero (line 665).
- A last vector without a value is lost when neither padding nor a checksum follows (line 938), an AWS vector with
  an empty identifier can be created but is refused (line 1052), an SSL vector with a missing field carries heap
  contents and is never received as sent (lines 316-321), and the session flag always repeats the connection flag
  (line 310).
- A namespace or AWS vector that ends the buffer is copied with one byte from behind the buffer (line 266).
- The parser hangs for ever on twenty bytes with a padding vector of declared length 65533, because the step is cut
  to 16 bits (line 942); in a buffer that holds 65533 more bytes it stores such an ALPN vector for ever, and its inner
  loop can hang in the same way (line 1036). `ProxyV2Returns` says on which bytes, and that a buffer of at most 65535
  bytes in which no vector declares 65533 is safe.
- A header whose checksum vector gets the type byte of a type nobody looks at is accepted unchecked
  (`RetypedIsAccepted`).
- Parsing uses the checksum up: the same buffer is refused a second time unless the checksum is zero (line 969).
- The comment at line 1216 admits port 0; the code (line 203) refuses it, and the model follows the code. The
  search for a space in "PROXY UNKNOWN" runs past the line end (line 1126), and a line of 15 bytes without a space
  counts as UNKNOWN whatever it says (line 1130).
- A failed direct write sends the byte in front of the payload (`test_epoll/lib/tcp_connection.c:92`): the result
  of `write` is unsigned there, so the error branch is never taken.
- The 1025th descriptor gets a map entry and no poll slot (`test_epoll/lib/poll_dispatcher.c:84-86`;
  `AgreementCanBreak`).
- A scan of the connection pool that removes the last idle connections notifies nobody, so the producing thread
  may sleep on with an empty queue; and with more than `_init_size` connections leased it can ask an empty queue
  for its front.
- The terminators of method, url and version are written one byte behind their blocks
  (`test_epoll/lib/http_server.c:21`, `:30`, `:36`), so each string carries one byte of old heap contents.
- A header line without ": " ends the HTTP request wherever it stands, and two bytes of it are consumed.

Assumptions: `inet_pton` and `inet_ntop` are the parameter `Inet`; the host is little-endian and 64-bit where the
source copies integers; `channel->data` is read as an event loop (`test_epoll/lib/channel.c:21`, `:27`) although a
connection stores itself there (`test_epoll/lib/tcp_connection.c:78`), and the model uses the connection's loop;
writing the wake-up byte succeeds; loads and stores of a channel's `events` are atomic; system calls return any
result they can return; allocations succeed.

## Model

| member | source | states |
|---|---|---|
| CrcTable.TableIsLinear | asio_server/proxy_protocol.cpp:500-565 | Each of the 256 table entries is the exclusive or of the entries of the single bits of its index. |
| Crc32c.TableEntry | asio_server/proxy_protocol.cpp:500-565 | Each of the 256 entries equals eight steps of the reflected shift register with polynomial 0x82F63B78. |
| Crc32c.TableByteIsSerial | asio_server/proxy_protocol.cpp:572 | One turn of the table-driven loop equals feeding the byte bit by bit. |
| Crc32c.Crc32c | asio_server/proxy_protocol.cpp:567-575 | The loop returns the bit-serial CRC32c of every byte string. |
| Crc32c.CheckValues | asio_server/proxy_protocol.cpp:567-575 | The CRC of no bytes, of a byte 0 and of a byte 255, as numbers. |
| Crc32c.SerialByteInjective | asio_server/proxy_protocol.cpp:572 | Distinct register states stay distinct under any byte. |
| Crc32c.RegisterInjective | asio_server/proxy_protocol.cpp:567-575 | Distinct register states stay distinct under any byte string. |
| Crc32c.RegisterAppend | asio_server/proxy_protocol.cpp:567-575 | The register after a concatenation is the register after the second part, started from the first. |
| Crc32c.BurstNeverCollides | asio_server/proxy_protocol.cpp:567-575 | Inputs of one length that differ only within four consecutive bytes have different CRCs. |
| Crc32c.OctetsInjective | asio_server/proxy_protocol.cpp:720 | The four checksum bytes in memory determine the CRC. |
| Crc32c.OctetsAreLittleEndian | asio_server/proxy_protocol.cpp:720 | The lowest byte of the CRC comes first in memory. |
| Crc32c.ChecksumCatchesBurst | asio_server/proxy_protocol.cpp:719-720 | The same for the four checksum bytes a header carries. |
| ProxyInfo.TlvArray.Append | asio_server/proxy_protocol.cpp:225-252 | Appending keeps all earlier vectors in order, through the first allocation and every growth. |
| ProxyVectors.SslWrittenLength | asio_server/proxy_protocol.cpp:316-337 | The bytes written for an SSL vector are as many as were reserved exactly when all five fields are present, and else at least three fewer. |
| ProxyVectors.PpInfo.Clear | asio_server/proxy_protocol.cpp:1264 | The structure becomes the cleared one, with no array. |
| ProxyVectors.PpInfo.AddAlpn | asio_server/proxy_protocol.cpp:275-278 | One ALPN vector is appended, nothing else changes. |
| ProxyVectors.PpInfo.AddAuthority | asio_server/proxy_protocol.cpp:280-283 | One authority vector is appended, nothing else changes. |
| ProxyVectors.PpInfo.AddUniqueId | asio_server/proxy_protocol.cpp:285-292 | An identifier of at most 128 bytes is appended; a longer one is refused and nothing changes. |
| ProxyVectors.PpInfo.AddNetns | asio_server/proxy_protocol.cpp:343-346 | One namespace vector is appended, its length cut to 16 bits, nothing else changes. |
| ProxyVectors.PpInfo.AddAwsVpceId | asio_server/proxy_protocol.cpp:348-357 | One AWS vector, subtype byte first, is appended, nothing else changes. |
| ProxyVectors.PpInfo.AddAzureLinkid | asio_server/proxy_protocol.cpp:359-368 | One Azure vector, subtype byte first, is appended, nothing else changes. |
| ProxyVectors.PpInfo.AddSubtypeSsl | asio_server/proxy_protocol.cpp:294-305 | Writes one sub-vector behind what was written, or nothing for an empty value, and leaves the rest of the block alone. |
| ProxyVectors.PpInfo.FillSsl | asio_server/proxy_protocol.cpp:328-337 | The block holds client byte, verify word and present sub-vectors, then what the heap held. |
| ProxyVectors.PpInfo.AddSsl | asio_server/proxy_protocol.cpp:307-341 | An SSL vector with what was written and then heap contents is appended, unless its length passes 16 bits, in which case nothing changes. |
| ProxyV2Create.GapIsLeast | asio_server/proxy_protocol.cpp:662-673 | The padding is the least of at least 3 bytes that reaches a multiple of the alignment, and at most alignment + 2. |
| ProxyV2Create.SumWraps | asio_server/proxy_protocol.cpp:652-656 | The 16-bit sum of the vector lengths is the sum of what the copying loop writes, modulo 2^16. |
| ProxyV2Create.AlignedIs | asio_server/proxy_protocol.cpp:662-678 | The 16-bit alignment arithmetic adds exactly the least gap, or the end passes 2^16. |
| ProxyV2Create.BlockIsFilledExactly | asio_server/proxy_protocol.cpp:647-721 | For all lengths and powers up to 15 at least as many bytes are written as the block has, and no more if and only if nothing passes 16 bits and a header to be padded is not already aligned. |
| ProxyV2Create.AlignedHeaderOverruns | asio_server/proxy_protocol.cpp:661-712 | An IPv4 header without vectors, padded to a multiple of 4, gets 28 bytes and 31 are written. |
| ProxyV2Create.LayoutIsIntended | asio_server/proxy_protocol.cpp:647-679 | Where there is room for what is copied, the 16-bit lengths are the intended ones. |
| ProxyV2Create.HeaderLength | asio_server/proxy_protocol.cpp:661-677 | A created header is as long as the announced total. |
| ProxyV2Create.HeaderIsAligned | asio_server/proxy_protocol.cpp:662-678 | A padded header ends on the least multiple of 2^power that leaves at least three bytes for the NOOP vector. |
| ProxyV2Create.AddressBlockKnown | asio_server/proxy_protocol.cpp:583-645 | An accepted address block has a known family and transport and 0, 12, 36 or 216 bytes. |
| ProxyV2Create.ComputeLength | asio_server/proxy_protocol.cpp:647-660 | The loop adds up the vector lengths in 16 bits. |
| ProxyV2Create.ComputeLayout | asio_server/proxy_protocol.cpp:647-679 | The branches of the alignment code compute the 16-bit layout for every list of vectors. |
| ProxyV2Create.WriteTlvs | asio_server/proxy_protocol.cpp:694-700 | The vectors are written one after another at the index, of each as many bytes as its length says in 16 bits; or the block is too short for all of them. |
| ProxyV2Create.WritePadding | asio_server/proxy_protocol.cpp:701-712 | A NOOP vector with zero bytes is written at the index, or the block is too short for it. |
| ProxyV2Create.WriteBody | asio_server/proxy_protocol.cpp:688-712 | Fixed part, addresses, vectors and padding are written one after another, or the block is too short for all of them. |
| ProxyV2Create.WriteChecksum | asio_server/proxy_protocol.cpp:713-721 | The last seven bytes become the checksum vector, computed with its own four bytes zero. |
| ProxyV2Create.CreateBlock | asio_server/proxy_protocol.cpp:647-721 | The block is written completely and in order if and only if there is room for what is copied; otherwise it is overrun. |
| ProxyV2Create.MakeAddressBlock | asio_server/proxy_protocol.cpp:583-643 | The address block of each family, or the error of the first failing test. |
| ProxyV2Create.CreateHdr | asio_server/proxy_protocol.cpp:577-725 | For every structure: the header, the error of the first failing test, an overrun block, or a shift that leaves no alignment. |
| ProxyV2Create.FitsExactly | asio_server/proxy_protocol.cpp:647-679 | A header fits if and only if the power is at most 15, there is room for what is copied, and every vector is copied whole. |
| ProxyV2Create.MadeAsMeant | asio_server/proxy_protocol.cpp:577-725 | With accepted addresses a header fits if and only if one is made and each vector is copied whole, and then it is the intended one. |
| ProxyV2Wire.RejectedExactly | asio_server/proxy_protocol.cpp:577-645 | A header is refused if and only if the transport is above 2 or the family is not one of: none with the local flag, IPv4 or IPv6 with two addresses the system accepts, Unix; with the error of the first thing amiss. |
| ProxyV2Wire.AcceptableExactly | asio_server/proxy_protocol.cpp:577-645 | The same condition decides whether there is an address block, so it is the one the round trips start from. |
| ProxyV2Wire.VectorBytes | asio_server/proxy_protocol.cpp:275-368 | The literal bytes of a vector of each kind but SSL. |
| ProxyV2Wire.SslBytes | asio_server/proxy_protocol.cpp:307-341 | The literal bytes of a complete SSL vector: flags, verify word and the five sub-vectors in order. |
| ProxyV2Wire.MadeBytes | asio_server/proxy_protocol.cpp:577-700 | Every header that is made has the literal signature, version and command, family and transport, its own length behind them, the addresses and ports in their places, and what is copied of the vectors behind these. |
| ProxyV2Wire.MadeTail | asio_server/proxy_protocol.cpp:701-721 | Behind the vectors every header that is made has, if asked for, one padding vector of zeros, and last the checksum of the whole header with zeros in its own place. |
| ProxyV2Parse.StepStaysInside | asio_server/proxy_protocol.cpp:940-946 | An accepted vector moves the loop on by its size in 16 bits and never past the region; with a declared length of at most 65532 it lies inside the region. |
| ProxyV2Parse.AppendAscii | asio_server/proxy_protocol.cpp:263-273 | A value is stored with a NUL behind it, unless the copy leaves the buffer or, at 65535 bytes, the block. |
| ProxyV2Parse.AppendValue | asio_server/proxy_protocol.cpp:254-261 | A value is stored as it is, unless the copy leaves the buffer. |
| ProxyV2Parse.ParseSubKind | asio_server/proxy_protocol.cpp:1014-1034 | The sub-vector is stored as its type asks for, or the error of its type. |
| ProxyV2Parse.ParseSubTlv | asio_server/proxy_protocol.cpp:1012-1036 | One turn of the inner loop does what the value function says, error cases included. |
| ProxyV2Parse.ParseSsl | asio_server/proxy_protocol.cpp:1007-1041 | The inner loop with its 16-bit offset and the test behind it do what the value function says, endless runs included. |
| ProxyV2Parse.ParseSslTlv | asio_server/proxy_protocol.cpp:997-1043 | The flags are read and the inner loop runs over the rest of the value. |
| ProxyV2Parse.ParseCrc | asio_server/proxy_protocol.cpp:957-984 | The checksum bytes are zeroed in place and compared with the CRC of the whole header. |
| ProxyV2Parse.ParseKind | asio_server/proxy_protocol.cpp:948-1088 | The `switch` over the kinds, for every declared length. |
| ProxyV2Parse.ParseTlv | asio_server/proxy_protocol.cpp:940-1090 | One turn of the TLV loop on buffer and structure, for every declared length. |
| ProxyV2Parse.ParseTlvs | asio_server/proxy_protocol.cpp:938-1093 | The TLV loop on buffer and structure, endless runs included. |
| ProxyV2Parse.ParseFixed | asio_server/proxy_protocol.cpp:813-867 | Version, command, family and transport, or the error and what was already stored. |
| ProxyV2Parse.ParseInet | asio_server/proxy_protocol.cpp:892-925 | Addresses and ports of IPv4 or IPv6, or the error and what was already stored. |
| ProxyV2Parse.ParseAddresses | asio_server/proxy_protocol.cpp:885-934 | The address block of every family and where the vectors start. |
| ProxyV2Parse.ParseHdr | asio_server/proxy_protocol.cpp:808-1094 | The whole parser: result, buffer and structure. |
| ProxyV2Format.FixedPartRead | asio_server/proxy_protocol.cpp:808-883 | On any buffer the parser refuses version, command, family or transport if and only if their bits are wrong and those before are right; if all are right, it hands out local if and only if the command is LOCAL, and family and transport as the two nibbles, whatever follows; a returned length is the announced one. |
| ProxyV2Format.AddressPartRead | asio_server/proxy_protocol.cpp:869-934 | On any buffer with a good fixed part the addresses are refused for these reasons exactly (length, or one the system cannot print), and else handed out from their literal places. |
| ProxyV2Format.SslFlagsRead | asio_server/proxy_protocol.cpp:997-1006 | The client byte of any sender is read bit by bit, whatever its other bits, and no other vector changes the flags. |
| ProxyV2Format.SslVectorStoresVersion | asio_server/proxy_protocol.cpp:1007-1041 | An SSL vector of any sender that passes with its connection bit set has stored a version sub-vector. |
| ProxyV2Format.ConnectionHasVersion | asio_server/proxy_protocol.cpp:808-1094 | A header of any sender that is accepted with the connection flag set has left a version in the structure. |
| ProxyV2Format.SslAcceptedExactly | asio_server/proxy_protocol.cpp:1007-1041 | Known sub-vectors that fill the value are accepted if and only if a version is among them or the connection bit is clear. |
| ProxyV2RoundTrip.SslLoopReads | asio_server/proxy_protocol.cpp:1010-1037 | The inner loop reads known sub-vectors one after another. |
| ProxyV2RoundTrip.SslLoopGrows | asio_server/proxy_protocol.cpp:1010-1037 | The inner loop only appends, and appends something if it passes with anything to read. |
| ProxyV2RoundTrip.SslStepOf | asio_server/proxy_protocol.cpp:307-341 | An SSL vector with five present fields is consumed exactly: its sub-vectors come out in order, a NUL on the first four, with the flags as written. |
| ProxyV2RoundTrip.SslStepIncomplete | asio_server/proxy_protocol.cpp:316-338 | With a field missing, whatever the heap held, the parser fails or stores more than was sent. |
| ProxyV2RoundTrip.SslReceivedExactly | asio_server/proxy_protocol.cpp:307-341 | For every heap content, an SSL vector is received as sent if and only if all five fields are present. |
| ProxyV2RoundTrip.ClientFlags | asio_server/proxy_protocol.cpp:1002-1005 | The flags read are the ones written with the session flag replaced by the connection flag, so they come back unchanged if and only if these two agree. |
| ProxyV2RoundTrip.MissingFieldIsRefused | asio_server/proxy_protocol.cpp:316-338 | With a field missing and a zeroed heap block the turn ends with the SSL error. |
| ProxyV2RoundTrip.FlatStep | asio_server/proxy_protocol.cpp:948-1088 | One flat vector is received as sent, a NUL added to the ASCII kinds; an ASCII one that ends the buffer is copied one byte too far. |
| ProxyV2RoundTrip.EmptyAwsStep | asio_server/proxy_protocol.cpp:1052-1055 | An AWS vector with an empty identifier is refused. |
| ProxyV2Theorems.WalkVectors | asio_server/proxy_protocol.cpp:938-1091 | All complete vectors are received in order unless an empty AWS identifier stops the loop. |
| ProxyV2Theorems.WalkAtLeast | asio_server/proxy_protocol.cpp:938-1091 | Over any vectors the loop fails or stores at least what was sent, and more if an SSL vector is incomplete. |
| ProxyV2Theorems.WalkOverreads | asio_server/proxy_protocol.cpp:263-273 | If the last vector ends the buffer and is an ASCII one, the loop reads one byte behind the buffer. |
| ProxyV2Theorems.StopsAtEmptyAws | asio_server/proxy_protocol.cpp:1052-1055 | At the first empty AWS identifier the parse ends with the AWS error and what came before stays stored. |
| ProxyV2Theorems.CreatedIsMade | asio_server/proxy_protocol.cpp:577-725 | The header the theorems speak of is what the creating function makes. |
| ProxyV2Theorems.Placed | asio_server/proxy_protocol.cpp:688-721 | Where each part of a created header lies in a buffer that holds it. |
| ProxyV2Theorems.SeenTextMeansTheSame | asio_server/proxy_protocol.cpp:894-901 | The address text found stands for the same octets as the one given, which ends at its first NUL. |
| ProxyV2Theorems.RoundTrip | asio_server/proxy_protocol.cpp:577-1094 | Parsing a created header followed by any payload returns its length and exactly what was sent if and only if no AWS identifier is empty, no SSL field is missing and the last vector is not copied beyond the buffer; the outcome in the first and the third failing case is named. |
| ProxyV2Theorems.UnixRoundTrip | asio_server/proxy_protocol.cpp:926-930 | For AF_UNIX the addresses come back and the vectors are never looked at. |
| ProxyV2Theorems.NothingLostExactly | asio_server/proxy_protocol.cpp:938 | Every vector arrives if and only if there is none, the last one has a value, or padding or a checksum follows. |
| ProxyV2Corruption.ChecksumBreaks | asio_server/proxy_protocol.cpp:964-976 | A burst within four bytes that spares the head of the checksum vector breaks the checksum. |
| ProxyV2Corruption.BurstIsRejected | asio_server/proxy_protocol.cpp:957-976 | Any change within four consecutive bytes of addresses, flat values, padding or checksum makes the parser return the checksum error. |
| ProxyV2Corruption.BurstIsNeverAccepted | asio_server/proxy_protocol.cpp:957-1043 | Whatever vectors were sent, no change within four consecutive bytes of these or of SSL values is accepted. |
| ProxyV2Corruption.RetypedIsAccepted | asio_server/proxy_protocol.cpp:957-976 | With another type byte, of a type that nobody looks at, in front of its checksum the header is accepted and everything else received as sent. |
| ProxyV2Corruption.SecondParseIsRefused | asio_server/proxy_protocol.cpp:969-976 | After a successful parse the same buffer parses as before if its checksum is zero, and is refused with the checksum error otherwise. |
| ProxyV2Endless.InnerLoopEndlessExactly | asio_server/proxy_protocol.cpp:1009-1037 | From any turn on, the inner loop is reported endless if and only if it stays inside for every number of turns. |
| ProxyV2Endless.SslEndlessExactly | asio_server/proxy_protocol.cpp:1009-1037 | The same from its start. |
| ProxyV2Endless.StandsStillAgain | asio_server/proxy_protocol.cpp:940-1090 | A turn that moves on by 0 bytes changes no byte of the buffer and happens again, whatever was stored. |
| ProxyV2Endless.WalkEndlessExactly | asio_server/proxy_protocol.cpp:938-1091 | The parser is reported endless if and only if its loop has a next turn for ever or enters an inner loop that never ends. |
| ProxyV2Returns.InnerLoopEndlessWhen | asio_server/proxy_protocol.cpp:1009-1037 | The inner loop never ends if and only if it is still inside after 65536 turns. |
| ProxyV2Returns.InnerLoopReturns | asio_server/proxy_protocol.cpp:1009-1037 | In a buffer that ends less than 65536 bytes behind the first sub-vector the inner loop always ends, and passes only if the sub-vectors lie in the buffer. |
| ProxyV2Returns.StandsStillExactly | asio_server/proxy_protocol.cpp:940-1090 | A turn leaves the position as it is if and only if the declared length is 65533 and the vector is ignored, or is copied from a buffer that holds its bytes, or is an SSL vector whose sub-vectors pass. |
| ProxyV2Returns.NothingChangesExactly | asio_server/proxy_protocol.cpp:940-1090 | A turn leaves position, buffer and structure as they are if and only if the declared length is 65533 and the vector is neither refused nor stored. |
| ProxyV2Returns.InnerHangExactly | asio_server/proxy_protocol.cpp:997-1043 | A turn enters an inner loop that never ends if and only if it is at an accepted SSL vector and the loop is still inside after 65536 turns. |
| ProxyV2Returns.WalkEndlessWhen | asio_server/proxy_protocol.cpp:938-1091 | The loop never ends if and only if some turn is at a vector it stands on or whose inner loop never ends, and then one of its first turns is, their number bounded by the bytes of the region. |
| ProxyV2Returns.ParseEndlessExactly | asio_server/proxy_protocol.cpp:808-1094 | The same for the whole parser: it never returns if and only if its loop is reached and comes to such a vector. |
| ProxyV2Returns.ShortParseEndlessExactly | asio_server/proxy_protocol.cpp:808-1094 | On at most 65535 bytes the parser never returns if and only if its loop comes to an ignored vector of declared length 65533. |
| ProxyV2Returns.ShortBufferReturns | asio_server/proxy_protocol.cpp:808-1094 | On at most 65535 bytes the parser returns if no vector of the row that the declared lengths spell in the given bytes declares 65533. |
| ProxyV2Returns.StoredForEver | asio_server/proxy_protocol.cpp:950-956 | A copied vector on which the loop stands is stored once more by every turn. |
| ProxyV2Returns.HangingAlpnStored | asio_server/proxy_protocol.cpp:808-1094 | A header whose ALPN vector declares 65533 bytes, in a buffer that holds them: the parser stores it for ever. |
| ProxyV2Returns.HangingHeader | asio_server/proxy_protocol.cpp:938-1091 | Twenty bytes, whatever follows them, on which the parser never returns. |
| ProxyV2Returns.HangingInnerLoop | asio_server/proxy_protocol.cpp:1010-1037 | Bytes on which the inner loop never ends, if the buffer is long enough. |
| ProxyV2Decode.SplitKeepsBytes | asio_server/proxy_protocol.cpp:938-1091 | Splitting a region into vectors and a tail loses and adds no byte. |
| ProxyV2Decode.SplitFindsVectors | asio_server/proxy_protocol.cpp:938-1091 | Vectors laid out one after another are found again, whatever short tail follows. |
| ProxyV2Decode.StepReads | asio_server/proxy_protocol.cpp:940-1090 | One turn at a vector that fits does what the reading of that vector says, checksums included. |
| ProxyV2Decode.WalkDecodes | asio_server/proxy_protocol.cpp:938-1093 | For every region without SSL vectors the loop stores what a recursive reading keeps, ends where and as it ends, leaves the same buffer, and behind the vectors returns the header length for a tail of up to three bytes and the length error for one that does not fit. |
| ProxyV2Decode.WalkClearsOnlyChecksums | asio_server/proxy_protocol.cpp:969 | On any input the loop changes nothing in the buffer but bytes of checksum vectors it looks at, inside the region, which become zero. |
| ProxyLookup.GetTlvValue | asio_server/proxy_protocol.cpp:384-412 | The search loop returns the first vector of the type, checked against the subtype. |
| ProxyLookup.FindIsFirst | asio_server/proxy_protocol.cpp:384-412 | On any array the first vector of the type decides: its value, or what stands behind the subtype, or nothing and the length left behind. |
| ProxyLookup.FindInAll | asio_server/proxy_protocol.cpp:384-412 | In the vectors received, a getter finds what the first matching sent vector carried. |
| ProxyLookup.GettersFindWhatWasSent | asio_server/proxy_protocol.cpp:414-472 | After a created header has been parsed each getter returns what the sender put into the first vector of its kind that arrived, or nothing; the getter for the checksum returns the last four bytes of a header that has one. |
| ProxyLookup.GettersFindNothingForUnix | asio_server/proxy_protocol.cpp:926-930 | For AF_UNIX the getters find nothing. |
| ProxyLookup.GettersBeforeRefusal | asio_server/proxy_protocol.cpp:1052-1055 | After a parse that ended at an empty AWS identifier the getters find what came before it. |
| ProxyV1.PortReadBack | asio_server/proxy_protocol.cpp:200-209 | Every printed number is read back as a port if and only if it is from 1 to 65535. |
| ProxyV1Format.PortsExactly | asio_server/proxy_protocol.cpp:200-209 | Which texts are ports: blanks and a plus sign in front and anything but a digit behind are allowed, a minus sign never, and the number must be from 1 to 65535. |
| ProxyV1.DigitsReadDecimal | asio_server/proxy_protocol.cpp:200-209 | Reading the digits of a printed number gives the number. |
| ProxyV1.LineFitsBlock | asio_server/proxy_protocol.cpp:745-770 | The longest TCP line has 104 bytes, so it fits the block with its NUL. |
| ProxyV1.CreateHdr | asio_server/proxy_protocol.cpp:737-788 | Returns the line for the structure or the error of the first failing check, always shorter than the block. |
| ProxyV1Format.CreatedExactly | asio_server/proxy_protocol.cpp:737-788 | A line is refused for a transport above 1, a family above 2 or a text of more than 39 characters, and for nothing else. |
| ProxyV1.ParseHdr | asio_server/proxy_protocol.cpp:1096-1260 | The whole parser with its moving pointer: result and structure. |
| ProxyV1.ParseFrom | asio_server/proxy_protocol.cpp:1125-1260 | The family and everything behind it, or the error and what was already stored. |
| ProxyV1Format.AcceptedExactly | asio_server/proxy_protocol.cpp:1096-1260 | A buffer is accepted if and only if it holds "PROXY ", a CRLF and then either no family, or TCP4 or TCP6 with four fields the system accepts. |
| ProxyV1Format.TcpLineRead | asio_server/proxy_protocol.cpp:1144-1260 | Such a TCP line returns the position behind its first CRLF and hands out the fields from their places. |
| ProxyV1Format.NoFamilyRead | asio_server/proxy_protocol.cpp:1125-1158 | A line that gives no family returns the position behind its first CRLF, whatever else it says. |
| ProxyV1Format.UnknownLongForm | asio_server/proxy_protocol.cpp:1153-1158 | In particular one that starts with "PROXY UNKNOWN ". |
| ProxyV1.ParseAddresses | asio_server/proxy_protocol.cpp:1172-1214 | Both addresses are read and checked, or the error and what was already stored. |
| ProxyV1.ParsePorts | asio_server/proxy_protocol.cpp:1216-1259 | Both ports and the line end are read, or the error and what was already stored. |
| ProxyV1.CrlfFound | asio_server/proxy_protocol.cpp:1103-1109 | In a printed line followed by anything the first CRLF is the line's own. |
| ProxyV1.TcpRoundTrip | asio_server/proxy_protocol.cpp:752-1260 | Parsing a TCP4 or TCP6 line followed by any payload returns its length, addresses and ports, if and only if the system accepts both addresses and no port is 0; else the error of the first obstacle. |
| ProxyV1.UnknownRoundTrip | asio_server/proxy_protocol.cpp:1125-1158 | An UNKNOWN line is recognised unless at least 93 payload bytes follow of which the first 93 hold no space and no NUL; then the search leaves the block. |
| ProxyHeader.ParseHdr | asio_server/proxy_protocol.cpp:1262-1277 | Clears the structure and runs the parser that the first bytes ask for. |
| ProxyHeader.ParserChosenExactly | asio_server/proxy_protocol.cpp:1262-1277 | A buffer goes to the parser of its literal signature, and to none if and only if it has neither. |
| ProxyHeader.CreateHdr | asio_server/proxy_protocol.cpp:790-806 | Creates a header of the version asked for, or refuses the version. |
| ProxyHeader.CreatedIsRecognised | asio_server/proxy_protocol.cpp:790-806 | Whatever is created, fitting or not, is taken by any reader for a header of its version and read by the parser of that version. |
| ProxyHeader.Version2IsRecognised | asio_server/proxy_protocol.cpp:1265-1268 | Every version 2 header that is made reaches the version 2 parser. |
| ProxyHeader.Version1IsRecognised | asio_server/proxy_protocol.cpp:1269-1272 | A created version 1 line reaches the version 1 parser. |
| CStrings.MemmemIsFirst | test_epoll/lib/buffer.c:108-111 | The search misses no earlier occurrence. |
| CStrings.StrchrIsFirst | asio_server/proxy_protocol.cpp:1126 | The search finds the first place of the character in front of any NUL, and is stopped by exactly the first NUL. |
| CStrings.StrstrIsFirst | asio_server/proxy_protocol.cpp:1103 | The search finds the first place of the two characters in front of any NUL. |
| Buffer.ByteBuffer.MakeRoom | test_epoll/lib/buffer.c:35-57 | Room for the bytes is made by doing nothing, compacting or growing, and the queue stays as it is. |
| Buffer.ByteBuffer.MoveToFront | test_epoll/lib/buffer.c:41-45 | Copying byte by byte from the front moves an overlapping range intact. |
| Buffer.ByteBuffer.Append | test_epoll/lib/buffer.c:59-66 | The queue grows by exactly the bytes given. |
| Buffer.ByteBuffer.AppendChar | test_epoll/lib/buffer.c:68-72 | The queue grows by exactly the byte given. |
| Buffer.ByteBuffer.TakeIn | test_epoll/lib/buffer.c:90-93 | What a scatter read delivers lies partly in the block, partly in the spill buffer, in order. |
| Buffer.ByteBuffer.SocketRead | test_epoll/lib/buffer.c:82-100 | The queue grows by exactly what arrived, spilled or not; a failure changes nothing. |
| Buffer.ByteBuffer.ReadChar | test_epoll/lib/buffer.c:102-106 | The front byte of the queue is returned and removed. |
| Buffer.ByteBuffer.FindCrlf | test_epoll/lib/buffer.c:108-111 | Returns the first CRLF of the queue, or nothing when there is none. |
| EventTable.Doubled | test_epoll/lib/channel_map.c:5-25 | Doubling ends above the slot, and the last doubling was needed. |
| EventTable.Grown | test_epoll/lib/channel_map.c:5-25 | Growth reaches the slot, keeps every entry and adds only empty ones. |
| EventTable.WriteBit | test_epoll/lib/channel.c:16-30 | Switching write interest changes the write bit only. |
| EventTable.MaskBits | test_epoll/lib/poll_dispatcher.c:62-71 | A poll mask has bit 0x0040 if and only if the events have 0x02, bit 0x0100 if and only if they have 0x04, and no other bit. |
| EventTable.PollAddWatches | test_epoll/lib/poll_dispatcher.c:58-89 | With a free slot the new descriptor is watched with its mask, all others as before, none twice. |
| EventTable.PollDelWatches | test_epoll/lib/poll_dispatcher.c:91-110 | The descriptor is no longer watched, all others as before. |
| EventTable.PollUpdateWatches | test_epoll/lib/poll_dispatcher.c:112-141 | The descriptor has the new mask, all others as before. |
| EventTable.ApplyWatches | test_epoll/lib/event_loop.c:84-150 | What is watched after a request, for every descriptor and mask. |
| EventTable.ApplyKeepsEntries | test_epoll/lib/event_loop.c:84-150 | Which entries exist after a request; growth and requests for other descriptors lose none. |
| EventTable.StatusTells | test_epoll/lib/event_loop.c:84-150 | The handler answers 1 if and only if it has added or removed an entry, and -1 if and only if it is to remove or update a channel that is not there. |
| EventTable.AgreementKeptExactly | test_epoll/lib/event_loop.c:84-150 | A request keeps "an entry if and only if one slot" exactly unless it adds a descriptor while no slot is free. |
| EventTable.AgreementCanBreak | test_epoll/lib/poll_dispatcher.c:74-91 | After 1024 additions to a new table the next one gets an entry and no slot. |
| EventTable.FreeSlotExactly | test_epoll/lib/poll_dispatcher.c:73-81 | A slot is free if and only if fewer descriptors are live than there are slots. |
| EventTable.LegalKeepsHolds | test_epoll/lib/event_loop.c:84-150 | A request that plays by the rules meets the code's demands and leaves the table holding the new set of channels, one slot each. |
| EventTable.BatchKeepsHolds | test_epoll/lib/event_loop.c:10-37 | The same for a request queued behind any batch; its slot ends with its mask. |
| EventTable.MasksDoNotMatter | test_epoll/lib/event_loop.c:10-37 | Which descriptors a batch registers where does not depend on the masks. |
| EventLoop.PollDispatcher.Add | test_epoll/lib/poll_dispatcher.c:58-89 | The loop fills the first free slot, or leaves all as it is; the slot waits bit by bit for the channel's events. |
| EventLoop.PollDispatcher.Del | test_epoll/lib/poll_dispatcher.c:91-110 | The loop frees the first slot of the descriptor. |
| EventLoop.PollDispatcher.Update | test_epoll/lib/poll_dispatcher.c:112-141 | The loop sets the mask of the first slot of the descriptor, which then waits bit by bit for the channel's events. |
| EventLoop.ChannelMap.MakeSpace | test_epoll/lib/channel_map.c:5-25 | The map reaches the slot, with all entries kept and empty new ones. |
| EventLoop.EventLoop.constructor | test_epoll/lib/event_loop.c:193-234 | A new loop has an empty list and just the wake-up channel registered, watched for reading; its table is the empty one after that one addition. |
| EventLoop.EventLoop.HandlePendingAdd | test_epoll/lib/event_loop.c:84-106 | Map, slots and result as the value function says. |
| EventLoop.EventLoop.HandlePendingRemove | test_epoll/lib/event_loop.c:109-133 | Map, slots and result as the value function says. |
| EventLoop.EventLoop.HandlePendingUpdate | test_epoll/lib/event_loop.c:136-150 | Slots and result as the value function says. |
| EventLoop.EventLoop.HandleList | test_epoll/lib/event_loop.c:15-28 | Walking the links carries out every queued request once, in order. |
| EventLoop.EventLoop.HandlePendingChannel | test_epoll/lib/event_loop.c:10-37 | The whole list is carried out in order and is then empty, and the flag is down. |
| EventLoop.EventLoop.ChannelBufferNolock | test_epoll/lib/event_loop.c:39-52 | The list stays well linked from head to tail and gains exactly the new element at its end. |
| EventLoop.EventLoop.DoChannelEvent | test_epoll/lib/event_loop.c:54-69 | From the owner the queue and the new request are carried out; from another thread the request is queued and one wake-up byte is written. |
| EventLoop.EventLoop.ChangeEvents | test_epoll/lib/channel.c:20-30 | After a change of events in the owner thread the channel's slot has the new mask and the table still holds its channels. |
| EventLoop.EventLoop.AddChannel | test_epoll/lib/event_loop.c:71-73 | A new channel is registered at the latest with the next drain. |
| EventLoop.EventLoop.RemoveChannel | test_epoll/lib/event_loop.c:75-77 | The channel has neither entry nor slot, all others keep theirs. |
| Reactor.StepKeepsLock | test_epoll/lib/event_loop.c:10-69 | Every step keeps: one holder of the mutex, and the flag is up exactly while the owner drains. |
| Reactor.StepKeepsOrder | test_epoll/lib/event_loop.c:10-52 | Every step keeps: what was carried out followed by what is queued is the history of the queue. |
| Reactor.StepKeepsWake | test_epoll/lib/event_loop.c:54-191 | Every step keeps: queued requests are at most unread bytes, threads about to write one, one for a byte read since the last drain and one for a callback's own request. |
| Reactor.StepKeepsTable | test_epoll/lib/event_loop.c:84-150 | Every step keeps: for callers who play by the rules no demand of the code is broken and the table holds the registered channels. |
| Reactor.StepKeepsMask | test_epoll/lib/channel.c:20-30 | Every step keeps: a slot has the mask of its channel's events unless an update is on its way. |
| Reactor.RunKeepsInv | test_epoll/lib/event_loop.c:10-264 | All of this holds after every run of any interleaving. |
| Reactor.WakeIsWatched | test_epoll/lib/event_loop.c:230-231 | The wake-up channel always has a slot with bit 0x0040, and without bit 0x0100. |
| Reactor.NoLostWakeup | test_epoll/lib/event_loop.c:54-260 | When the owner is about to block, queued requests are at most unread bytes plus threads about to write one; once those have written, a non-empty queue makes `poll` return. |
| Reactor.ExactlyOnce | test_epoll/lib/event_loop.c:10-69 | In every run each request is carried out once, in the order of the lock, and the assertion of line 57 never fails. |
| Reactor.MapAndPollerAgree | test_epoll/lib/event_loop.c:84-150 | In every run each registered channel has one entry and one slot, which waits bit by bit for its events when no update is queued or about to be. |
| Reactor.EventsAreAsked | test_epoll/lib/channel.c:10-30 | In every run a channel's events are those of the last update asked for it, or those it came with. |
| Reactor.SlotsWaitAsAsked | test_epoll/lib/event_loop.c:84-150 | So a slot waits for what the callers last asked for, when no update is on its way. |
| Reactor.NothingLeftBehind | test_epoll/lib/event_loop.c:241-264 | If no thread has a due step left, every request has been carried out. |
| Reactor.DueStepIsProgress | test_epoll/lib/event_loop.c:241-264 | Every due step lowers a measure. |
| Reactor.DueRunIsBounded | test_epoll/lib/event_loop.c:241-264 | So after the last request only a bounded number of due steps remains. |
| ReactorRefinement.ApplyAllRenamed | test_epoll/lib/event_loop.c:84-150 | Carrying out requests does not depend on what a channel is: it commutes with giving channels other names. |
| ReactorRefinement.DrainIsRun | test_epoll/lib/event_loop.c:10-37 | A drain, step by step, carries out the whole queue in order, with the masks of the moment it begins, and nothing else. |
| ReactorRefinement.NewLoopIsInitial | test_epoll/lib/event_loop.c:193-234 | A loop as its constructor leaves it is the initial state of the reactor. |
| ReactorRefinement.HandlePendingChannel | test_epoll/lib/event_loop.c:10-37 | Draining the linked list takes a loop that represents a state to one that represents the state after the steps of a drain. |
| ReactorRefinement.AskFromThread | test_epoll/lib/event_loop.c:54-69 | A request from another thread takes it to the state after the four steps of a producer. |
| ReactorRefinement.AskFromOwner | test_epoll/lib/event_loop.c:54-69 | A request from a callback takes it to the state after the three steps of the owner and a drain of the queue with the new request. |
| ByteStream.StepBytes | test_epoll/lib/tcp_connection.c:31-123 | What one send or write callback adds to the bytes on the wire and in the buffer. |
| ByteStream.StepWire | test_epoll/lib/tcp_connection.c:31-123 | The wire grows by just the bytes that `write` reports as taken, and a send tries to write only when no bytes wait and write events are off. |
| ByteStream.InterestFollowsBuffer | test_epoll/lib/tcp_connection.c:31-123 | After every run write events are on if and only if bytes wait. |
| ByteStream.ConservedExactly | test_epoll/lib/tcp_connection.c:91-123 | After every run wire and buffer spell the payloads in order if and only if no direct write failed. |
| ByteStream.FailedWriteSendsAStranger | test_epoll/lib/tcp_connection.c:92-116 | A concrete run in which a byte that was never sent reaches the wire. |
| TcpConnection.TcpConnection.constructor | test_epoll/lib/tcp_connection.c:58-88 | A new connection has empty buffers, no write interest and a registered channel. |
| TcpConnection.TcpConnection.SetWriting | test_epoll/lib/channel.c:20-30 | Only the write interest changes, and the poll slot follows at once. |
| TcpConnection.TcpConnection.TryDirect | test_epoll/lib/tcp_connection.c:92-112 | The unsigned arithmetic of the direct write, a failed one included. |
| TcpConnection.TcpConnection.SendData | test_epoll/lib/tcp_connection.c:91-123 | Wire, buffer and interest change as the value function says, and the slot agrees with the interest afterwards. |
| TcpConnection.TcpConnection.SendBuffer | test_epoll/lib/tcp_connection.c:125-130 | The readable bytes of the other buffer are sent, and it is then empty. |
| TcpConnection.TcpConnection.HandleWrite | test_epoll/lib/tcp_connection.c:31-56 | The written bytes leave the buffer for the wire, interest goes with the last of them, and the slot agrees. |
| TcpConnection.TcpConnection.HandleRead | test_epoll/lib/tcp_connection.c:14-27 | What arrived is queued; at the end of the stream or on a failure the channel leaves map and slots. |
| ThreadPool.StepKeepsLock | thread_pool/thread_pool.h:17-69 | Every step keeps: the mutex has one holder, and that thread is where it holds it. |
| ThreadPool.StepKeepsOrder | thread_pool/thread_pool.h:22-69 | Every step keeps: tasks started followed by tasks queued are the tasks submitted. |
| ThreadPool.StepKeepsWork | thread_pool/thread_pool.h:17-69 | Every step keeps: while a worker sleeps, queued tasks are at most notifications under way plus workers on their way to the queue. |
| ThreadPool.StepKeepsShutdown | thread_pool/thread_pool.h:30-56 | Every step keeps: workers leave only after shutdown with an empty queue, and nobody sleeps after the final notification. |
| ThreadPool.RunKeepsInv | thread_pool/thread_pool.h:12-69 | All of this holds after every run of any interleaving. |
| ThreadPool.EveryTaskIsSomewhere | thread_pool/thread_pool.h:22-69 | In every run the tasks of all calls are, each as often as it was called with, those executed to the end, those workers are running, those queued and those about to be pushed. |
| ThreadPool.FirstPushedFirstExecuted | thread_pool/thread_pool.h:22-69 | In every run the tasks that workers run, in the order in which they begin, followed by those queued are the tasks pushed, in order. |
| ThreadPool.NothingLeftBehind | thread_pool/thread_pool.h:12-69 | A pool with a worker comes to rest only when every submitted task has been started, and after shutdown only when every worker has gone; the tasks executed are then those of all calls, each once. |
| ThreadPool.ShutdownTerminates | thread_pool/thread_pool.h:48-56 | After shutdown every step of any thread lowers a measure. |
| ThreadPool.ShutdownRunIsBounded | thread_pool/thread_pool.h:48-56 | So a run after shutdown has a bounded number of steps. |
| ThreadPool.DueStepIsProgress | thread_pool/thread_pool.h:17-69 | Before shutdown, too, every step but a new call, a spurious wake-up and the start of the destruction lowers a measure. |
| ThreadPool.DueRunIsBounded | thread_pool/thread_pool.h:17-69 | So a run of such steps is bounded. |
| ConnectionPool.Pool.constructor | connection/src/connection_pool.cpp:17-42 | A new pool holds the connections that succeeded, with their clock readings. |
| ConnectionPool.StartedInv | connection/src/connection_pool.cpp:17-42 | A new pool meets the invariant, whichever connections fail. |
| ConnectionPool.StartedHolds | connection/src/connection_pool.cpp:22-37 | A new pool has one connection for each attempt that succeeds, in order, each with its clock reading. |
| ConnectionPool.Pool.TryGet | connection/src/connection_pool.cpp:44-74 | The front connection leaves the queue, is leased and returned, and was not leased before; all waiting threads are notified; an empty queue changes nothing. |
| ConnectionPool.Pool.Return | connection/src/connection_pool.cpp:63-69 | A returned connection is refreshed and queued at the end, and nobody is notified. |
| ConnectionPool.Pool.ProduceOnce | connection/src/connection_pool.cpp:76-106 | The producer sleeps on a non-empty queue and else adds one connection if there is room and the connect succeeds, and nothing otherwise. |
| ConnectionPool.Pool.Scan | connection/src/connection_pool.cpp:109-134 | The scanning loop does what the value function says. |
| ConnectionPool.TakeKeepsInv | connection/src/connection_pool.cpp:63-73 | Leasing keeps the count, the limits, the order by refresh time and the separation of idle and leased. |
| ConnectionPool.GiveBackKeepsInv | connection/src/connection_pool.cpp:64-68 | Returning keeps them. |
| ConnectionPool.ProduceKeepsInv | connection/src/connection_pool.cpp:76-106 | Producing keeps them. |
| ConnectionPool.ScanKeepsInv | connection/src/connection_pool.cpp:117-130 | Scanning keeps them and touches no lease. |
| ConnectionPool.RunKeepsInv | connection/src/connection_pool.cpp:44-134 | In every run the count is idle plus leased connections and at most the larger of the two sizes, and the queue is sorted by refresh time. |
| ConnectionPool.ReachableInv | connection/src/connection_pool.cpp:17-134 | The same for every run from the start of a pool. |
| ConnectionPool.FirstQueuedFirstLeased | connection/src/connection_pool.cpp:44-134 | In every run connections leave the queue in the order in which they joined it. |
| ConnectionPool.NobodySharesALease | connection/src/connection_pool.cpp:44-134 | In every run the connections handed out and not returned are the leased ones, none of them twice and none of them in the queue. |
| ConnectionPool.ScanMeetsEmptyExactly | connection/src/connection_pool.cpp:117-119 | The scan asks an empty queue for its front if and only if more than `_init_size` connections are leased and every idle one has expired. |
| ConnectionPool.ScanIsExact | connection/src/connection_pool.cpp:117-130 | A scan that stops has removed the oldest connections only, each idle for more than 1000 times `_max_idle_time` at its test, and the count is down to `_init_size` or no remaining one was idle that long at the last test. |
| ConnectionPool.ScanEmptiesExactly | connection/src/connection_pool.cpp:117-130 | A scan that stops leaves the queue empty if and only if exactly `_init_size` connections are leased and every idle one has expired. |
| ConnectionPool.SupplyKeptExactly | connection/src/connection_pool.cpp:76-134 | Every step keeps "an empty queue finds the producer awake", except a scan that empties the queue while the producer sleeps. |
| ConnectionPool.SupplyCanStop | connection/src/connection_pool.cpp:109-134 | A run from the start of a pool reaches such a scan. |
| ConnectionPool.ScanCanMeetEmpty | connection/src/connection_pool.cpp:117-119 | A run from the start of a pool reaches a scan that asks an empty queue for its front. |
| Http.TurnProgress | test_epoll/lib/http_server.c:43-82 | A turn of the loop that changes anything consumes at least two bytes. |
| Http.SpinsWithoutCrlf | test_epoll/lib/http_server.c:43-82 | The loop runs on for ever if and only if it reaches unread bytes without a CRLF before the request is done. |
| Http.EndsBehindBlankLineOnly | test_epoll/lib/http_server.c:75-79 | A header line without ": " ends the request, and the parser stands right behind that line if and only if it was blank. |
| Http.HttpRequest.Reset | test_epoll/lib/http_request.c:36-42 | The request is as new. |
| Http.HttpRequest.AddHeader | test_epoll/lib/http_request.c:45-49 | The header is appended, everything else stays. |
| Http.StatusLineWritesOutside | test_epoll/lib/http_server.c:19-36 | Every accepted request line writes three terminators outside the blocks allocated for them. |
| Http.StoredText | test_epoll/lib/http_server.c:19-36 | A stored text is read back as it was if and only if it holds no NUL and the last byte of its block happened to be 0. |
| Http.ProcessStatusLine | test_epoll/lib/http_server.c:13-39 | Method, url and version are cut out and stored as the value function says, or an assertion fails. |
| Http.ProcessHeaderLine | test_epoll/lib/http_server.c:60-69 | Key and value are cut out, or there is no colon. |
| Http.ParseLine | test_epoll/lib/http_server.c:44-81 | One turn of the loop on buffer and request. |
| Http.ParseHttpRequest | test_epoll/lib/http_server.c:41-84 | The loop on buffer and request, which ends by a measure on the unread bytes. |
| Http.StatusLineRead | test_epoll/lib/http_server.c:13-39 | A printed request line is cut into method, url and version. |
| Http.StatusLineReadExactly | test_epoll/lib/http_server.c:13-39 | A request line is refused if and only if it holds fewer than two spaces. |
| Http.HeadersRead | test_epoll/lib/http_server.c:54-81 | Printed header lines and the blank line give back the headers in order. |
| Http.RoundTrip | test_epoll/lib/http_server.c:41-84 | Parsing a printed request followed by anything ends with the same headers and leaves exactly what followed unread; method, url and version read as printed if and only if the three heap bytes are 0. |

## Left out

- ProxyV2Create.CreateHdr: what the bytes behind an overrun block become is not followed; a power above 15 ends as `NoAlignment`, because `1 << power` is then 0 in 16 bits, or undefined. `ComputeLayout` and `CreateBlock` speak of smaller powers.
- ProxyV2Theorems.RoundTrip: speaks of headers that fit, so of values up to 65532 bytes; a longer vector is copied for as many bytes as are left of its size modulo 2^16, and the header is not as meant (`FitsExactly`).
- ProxyV2Decode.WalkDecodes: regions with SSL vectors are the subject of the round trip; a tail that declares more than 65532 bytes is left to the loop itself.
- What happens after `Overread`, `Overrun`, `OutOfBlock`, `Aborts`, `Overflows` or a fault of a request is not followed.
- ProxyV1.ParseHdr: a port text of six or more characters ends as `OutOfBlock`, because the source copies it into six bytes.
- Http.ParseLine: the three terminators that are written outside their blocks are taken to stay there and to destroy nothing else.
- Http.HttpRequest.AddHeader: the capacity of 384 headers follows from an allocation that uses the size of a request for each entry.
- ProxyV2Corruption.BurstIsRejected: which error a burst inside an SSL value gets is not said, only that it is not accepted (`BurstIsNeverAccepted`); bursts in vector heads and the fixed part are not covered, and `RetypedIsAccepted` shows one of them accepted.
- Reactor.MapAndPollerAgree: the rules for callers (a new descriptor while fewer than 1024 are registered, other requests about registered channels) are a condition on the order of the queue, which the code leaves to its callers.
- Concurrency is modelled as steps on values between accesses of the mutex, the condition variable and the socket pair. A class is not run by several threads; ReactorRefinement ties whole calls on a loop to runs of Reactor, and interleavings within a call are steps of Reactor only.
- ProxyV2Returns.ParseEndlessExactly: whether the vectors in front are accepted is asked of the parser's own turns; `ShortBufferReturns` is the condition on the given bytes alone.
- Timeouts of `getconnection` and of `poll` appear only as steps that may happen at any time; fairness of the scheduler is not assumed, so progress is stated as a measure and as what holds at rest.
- `poll_dispatch` and `channel_event_activate`: the order of callbacks within one dispatch and stale events of a slot reused within it.
- TcpConnection.TcpConnection.constructor: the connection-completed callback is left out; application callbacks may send again, which is a further step of a run.
- TcpConnection.TcpConnection.HandleWrite: the write-completed callback is left out in the same way.
- TcpConnection.TcpConnection.HandleRead: the message and close callbacks are left out in the same way.
- ConnectionPool.Pool.TryGet: the timed wait of lines 48-58 is left out; the method is what follows it, once the queue is not empty or the time is over.
- `pp2_create_healthcheck_hdr`, which passes on a structure it has not filled.
- Overflow of `int` in buffer sizes, and of the map size above 2^27 descriptors.
- `epoll_dispatcher.c`, the HTTP response encoder, `http_request_get_header` and `http_request_close_connection`, acceptor, server and client set-up, logging, the round-robin picker of event loop threads, `for_cpp_basis` and the asio sessions: they would only add easy members or are input and output.
