# meshcore-repeater: a verified model

meshcore-repeater is a LoRa mesh repeater written in C. These files model its protocol core and the
primitives it rests on, and prove what they are for: over all inputs, all runs of a node, and all runs of
a network of nodes. `dafny verify dfyconfig.toml` checks everything.

## How it is laid out

Code that changes state in place is a class or a method over arrays here, with the loops of the source.
Each method is proved equal to a function of the old state, and the lemmas are about those functions.

| modules | what they model |
|---|---|
| `Bytes`, `Bitwise`, `Field25519` | the field layer of tweetnacl on signed 64-bit limbs |
| `Sha256`, `Hmac`, `Aes128` | the streaming hash, the MAC and the block cipher |
| `Fips180`, `Rfc2104`, `Fips197` | their constants, bit operations and tables, tied to what the standards say they are |
| `Packet`, `Routes` | the wire format, the dedup hash, and how paths are rewritten |
| `Crypto`, `Content`, `Channel` | the content policy and the group message codec |
| `Names`, `Neighbours`, `Adverts`, `Seen`, `Queue` | name lists, the neighbour table, adverts, the dedup ring, the transmit queue |
| `Mesh`, `MeshProgram` | a node: as functions on its state, and as the program |
| `Runs`, `Hotspot`, `Stale`, `Hub` | invariants of whole runs of a node |
| `Relay`, `Echo` | what a node passes on, learns, serves and sends itself, said without the functions that compute it |
| `Network`, `Chain` | a network of nodes; a message carried from node to node and its reply back |
| `Replay`, `Session`, `TokenBucket`, `Bridge` | the session with the hub and the frames that come through it |
| `Paging` | the neighbour report |
| `Policy`, `PolicyPages`, `PolicyMerge`, `PolicyFile`, `Numerals`, `Restart` | the hub's rooms and blocks: collected, merged, kept in a file, restored |

The protocol modules take the primitives as a `Suite` of functions and ask only that decryption undoes
encryption; `Crypto.RealWorks` and `Crypto.RealIsReal` show that the program's own do. The clock,
random delays, a busy channel, the outcome of a transmission, what a local service answers and a
self-advert built are inputs of each step, constrained only where a lemma says so.

In `Network` a frame stays audible once it was sent, so a run covers every loss, delay, repetition and
order of reception. In `PolicyPages` a session delivers any pages of the hub in any order and number; the
hub's own duty is that a version fixes its pages and that a later version is sent with higher numbers only.

## Where the code does less than it seems to

Each of these has a run or an input that shows it and a lemma that says exactly when the property holds.

- A flood with 63 one-byte hops passes the guard on the path length and is relayed with none
  (`Hub.RelayedWithoutHops`, `Routes.WrapsAt63`); a hop is appended exactly below 63 (`Routes.AppendsIff`).
  Floods end all the same, because of the dedup ring (`Network.FloodsEnd`).
- What a hotspot queued in one period on the air can go out in a later one: a companion heard in the silence,
  before the transmit service ran in it, keeps the queue (`Stale.StaleGoesOut`, a run of the main loop for every
  hotspot). It can happen exactly when something queued is due in the new period (`Stale.StaleIff`), and not
  once the service has noticed the silence (`Stale.NoticedIsEmpty`, `Hotspot.NothingStale`).
- A hub frame keeps its packet from being bridged back for 160 other hashes only when the frame was new. A
  duplicate does not renew its hash in the ring: `Hub.BridgedTooSoon` is a run in which one other hash is
  enough. `Hub.BridgesIff` says exactly when a packet is bridged again, and `Hub.NoBridgeUntil` bounds it over
  all runs.
- Served and skipped rooms add up to the rooms offered and the skips received exactly when the node takes
  policies or none is offered (`PolicyMerge.OfferedNotCounted`, `PolicyMerge.CountsAddUpIff`).
- Which entries a set over the limits holds depends on the order its pages came in; how many it skips does
  not, and it holds them all exactly when none is skipped (`PolicyPages.OrderDecides`,
  `PolicyPages.HoldsAllIff`).
- A blocked name with a line break is not written to the policy file (`PolicyFile.BreakIsLost`, `PolicyFile.RoundTripIff`,
  `Restart.RestartRestores`).
- The sender of a group message is cut at 31 bytes and at its first ": " (`Channel.SplitsTooEarly`,
  `Channel.SenderIff`).

Where the documentation and the code differ the model follows the code: the replay window is the top 64
numbers (`src/backbone.c:252-254`), and the test for 8 free slots comes before the frame is queued, so that
7 are left (`src/backbone.c:647`).

## Model

| member | source | states |
|---|---|---|
| `Field25519.Car25519` | src/crypto/tweetnacl.c:278-288 | one carry pass moves every carry up and the top one round times 38, with no overflow of 64 signed bits for limbs below 2^62 |
| `Field25519.CarriedCongruent` | src/crypto/tweetnacl.c:278-288 | a carry pass keeps the value modulo 2^255-19 |
| `Field25519.CarriedOnce` | src/crypto/tweetnacl.c:278-288 | after one pass every limb but the lowest is in 16 bits and the lowest below 2^52 |
| `Field25519.CarriedTwice` | src/crypto/tweetnacl.c:278-288 | two passes leave limbs 1 to 15 in 16 bits and limb 0 within 38 of it: the bounds the operations feed back |
| `Field25519.CarriedThrice` | src/crypto/tweetnacl.c:305-307 | a third pass on such limbs leaves all sixteen in 16 bits |
| `Field25519.MaskedSwap` | src/crypto/tweetnacl.c:290-298 | the exclusive-or through the mask ~(b-1) exchanges two words when b is 1 and changes neither when b is 0, on signed 64-bit words |
| `Field25519.Sel25519` | src/crypto/tweetnacl.c:290-298 | exchanges two limb vectors, or not, as b says |
| `Field25519.A` | src/crypto/tweetnacl.c:347-351 | the sum as integers, also when operands and result are the same array; sums of reduced operands fit the bounds of `M` |
| `Field25519.Z` | src/crypto/tweetnacl.c:353-357 | the difference as integers, likewise |
| `Field25519.Product` | src/crypto/tweetnacl.c:361-363 | the 31 limbs of the schoolbook product are worth the product of the operands, without overflow for limbs below 2^26 |
| `Field25519.FoldCongruent` | src/crypto/tweetnacl.c:364-365 | folding the upper 15 limbs down times 38 keeps the residue |
| `Field25519.M` | src/crypto/tweetnacl.c:359-368 | the product modulo 2^255-19 for limbs below 2^26, with reduced output, aliasing allowed |
| `Field25519.S` | src/crypto/tweetnacl.c:370-373 | the square modulo 2^255-19 |
| `Field25519.Inv25519` | src/crypto/tweetnacl.c:375-385 | the input to the power 2^255-21: the square-and-multiply chain skipping bits 2 and 4 computes exactly that exponent |
| `Field25519.Pow2523` | src/crypto/tweetnacl.c:387-397 | the input to the power 2^252-3, the exponent of the square root of section 5.1.3 of RFC 8032 |
| `Field25519.Normalise` | src/crypto/tweetnacl.c:304-307 | three passes bring limbs below 2^62 to 16 bits each without changing the residue |
| `Field25519.SubtractPrime` | src/crypto/tweetnacl.c:309-316 | the borrow chain subtracts the prime from the value, leaving the sign in the top limb |
| `Field25519.FreezeChoice` | src/crypto/tweetnacl.c:315-317 | the borrow bit of the top limb is 1 exactly when the value was below the prime |
| `Field25519.FreezeStep` | src/crypto/tweetnacl.c:308-318 | one borrow-and-select round subtracts the prime exactly when the value is at least the prime |
| `Field25519.Pack25519` | src/crypto/tweetnacl.c:300-323 | the 32 bytes are the little-endian representative in [0, 2^255-19) for every limb vector below 2^62 |
| `Field25519.PackCanonical` | src/crypto/tweetnacl.c:300-331 | two limb vectors pack to the same bytes exactly when they are the same field element, on which `neq25519` rests |
| `Field25519.Unpack25519` | src/crypto/tweetnacl.c:340-345 | the limbs are worth the little-endian number modulo 2^255: the top bit is dropped |
| `Sha256.Context.constructor` | src/crypto/sha256.c:85-97 | a fresh context has been fed nothing |
| `Sha256.Context.Prepare` | src/crypto/sha256.c:48-51 | the 64 words of the message schedule |
| `Sha256.Context.Transform` | src/crypto/sha256.c:44-83 | the state becomes one compression of itself with the buffered block (section 6.2.2 of FIPS 180-4) |
| `Sha256.Context.Update` | src/crypto/sha256.c:99-112 | whatever was fed before, in whatever pieces, the context then stands for the concatenation |
| `Sha256.Context.Pad` | src/crypto/sha256.c:118-132 | in both branches the last block completed with the length absorbs to the padded message |
| `Sha256.Context.Final` | src/crypto/sha256.c:114-158 | the bytes written are the digest of everything fed in, so how it was split does not matter |
| `Sha256.AbsorbConcat` | src/crypto/sha256.c:99-112 | absorbing whole blocks and then the rest is absorbing all of it |
| `Sha256.ShortTail` | src/crypto/sha256.c:121-125 | with fewer than 56 bytes left the padding ends in the same block (section 5.1.1 of FIPS 180-4) |
| `Sha256.LongTail` | src/crypto/sha256.c:126-132 | with 56 or more left the padding takes one block more |
| `Sha256.LengthBytesAre` | src/crypto/sha256.c:135-143 | the eight bytes written are the 64-bit big-endian bit count |
| `Fips180.PrimesAre` | src/crypto/sha256.c:32-41 | the list the round constants are tested against is that of the first 64 primes, in order |
| `Fips180.RoundConstants` | src/crypto/sha256.c:32-41 | word t is the first 32 bits of the fractional part of the cube root of the t-th prime, by cubing (section 4.2.2 of FIPS 180-4) |
| `Fips180.InitialValue` | src/crypto/sha256.c:89-96 | the eight words are those of the square roots of the first eight primes (section 5.3.3) |
| `Fips180.ChBit` | src/crypto/sha256.c:24 | each bit is that of y where x is set and that of z where it is not |
| `Fips180.MajBit` | src/crypto/sha256.c:25 | each bit is what at least two of the three have |
| `Fips180.Ep0Bit` | src/crypto/sha256.c:26 | each bit is the sum of the three 2, 13 and 22 places on, round the corner |
| `Fips180.Ep1Bit` | src/crypto/sha256.c:27 | 6, 11 and 25 places on |
| `Fips180.Sig0Bit` | src/crypto/sha256.c:28 | 7 and 18 places on, and 3 on with nothing coming in |
| `Fips180.Sig1Bit` | src/crypto/sha256.c:29 | 17 and 19 places on, and 10 on with nothing coming in |
| `Fips180.RoundUndone` | src/crypto/sha256.c:62-74 | the eight variables before a round follow from those after it |
| `Fips180.ScheduleStarts` | src/crypto/sha256.c:48-49 | the first sixteen words are those of the block, big end first |
| `Fips180.ScheduleBack` | src/crypto/sha256.c:50-51 | each later word gives back the one sixteen before it |
| `Fips180.FeedForward` | src/crypto/sha256.c:75-82 | each word of the hash value is the sum of what it was and of its variable after 64 rounds |
| `Fips180.PaddingIs` | src/crypto/sha256.c:119-145 | a one bit, as few zeros as fill the last block, and the number of bits in 64, big end first (section 5.1.1) |
| `Fips180.DigestWords` | src/crypto/sha256.c:149-158 | the digest is the eight words in order, each big end first |
| `Hmac.KeyInto` | src/hmac_sha256.c:21-29 | a key over 64 bytes is replaced by its digest, then every key is padded with zeros |
| `Hmac.HmacSha256` | src/hmac_sha256.c:12-47 | H(K xor opad, H(K xor ipad, text)) of section 2 of RFC 2104, for short and long keys |
| `Rfc2104.MacIs` | src/hmac_sha256.c:12-47 | the two blocks bit by bit: the key, or its digest when it is longer than 64 bytes, then zeros, with bits 1, 2, 4 and 5 of every byte inverted in the inner and 2, 3, 4 and 6 in the outer |
| `Aes128.SboxInverts` | src/crypto/aes128.c:96-101 | the second table undoes the first on all 256 bytes |
| `Aes128.XtimeLinear` | src/crypto/aes128.c:112 | doubling in the field distributes over exclusive-or |
| `Aes128.MixInverts` | src/crypto/aes128.c:114-145 | the inverse column mix undoes the column mix on one byte, for every column |
| `Aes128.MixStateInverts` | src/crypto/aes128.c:114-145 | and hence on every state |
| `Aes128.ShiftInverts` | src/crypto/aes128.c:103-161 | the inverse row shift undoes the row shift |
| `Aes128.SubBytes` | src/crypto/aes128.c:96-101 | substitutes the 16 bytes of the block in place and touches nothing else |
| `Aes128.ShiftRows` | src/crypto/aes128.c:103-110 | the swaps and cycles in place are the row shift |
| `Aes128.InvShiftRows` | src/crypto/aes128.c:154-161 | the swaps and cycles in place are the inverse row shift |
| `Aes128.MixColumns` | src/crypto/aes128.c:114-125 | each column is mixed in place, from bytes already overwritten |
| `Aes128.InvMixColumns` | src/crypto/aes128.c:136-145 | each column is unmixed in place |
| `Aes128.KeyExpansion` | src/crypto/aes128.c:54-82 | the 176 bytes are the 44 words of the key schedule, each from the word before and the one four before (section 5.2 of FIPS 197) |
| `Aes128.EncryptBlock` | src/crypto/aes128.c:163-173 | ten rounds in place are the cipher of section 5.1 of FIPS 197 |
| `Aes128.DecryptBlock` | src/crypto/aes128.c:175-185 | the loop that ends at round 0 is the inverse cipher |
| `Aes128.StepsInvert` | src/crypto/aes128.c:163-185 | rounds undone one by one in reverse order undo the whole, for any number of rounds |
| `Aes128.DecryptInverts` | src/crypto/aes128.c:163-185 | decryption undoes encryption for every key schedule and block |
| `Aes128.EcbEncrypt` | src/crypto/aes128.c:187-191 | every whole block of the first `len` bytes is encrypted on its own and the rest kept |
| `Aes128.EcbDecrypt` | src/crypto/aes128.c:193-197 | every whole block of the first `len` bytes is decrypted on its own and the rest kept |
| `Aes128.EcbDecryptInverts` | src/crypto/aes128.c:187-197 | over a buffer of any length decryption undoes encryption |
| `Aes128.DecryptedIs` | src/crypto/aes128.c:84-197 | with the schedule expanded from any 16-byte key, decrypting what was encrypted gives the bytes back |
| `Fips197.SboxIs` | src/crypto/aes128.c:15-32 | every entry is the affine transform of the inverse in the field of 256 elements (section 5.1.1 of FIPS 197) |
| `Fips197.ShiftIs` | src/crypto/aes128.c:103-110 | row r moves left by r columns |
| `Fips197.MixIs` | src/crypto/aes128.c:114-125 | every byte is 2, 3, 1 and 1 times those of its column, by multiplication of polynomials modulo x^8+x^4+x^3+x+1 |
| `Fips197.InvMixIs` | src/crypto/aes128.c:136-145 | 14, 11, 13 and 9 times |
| `Fips197.RconIs` | src/crypto/aes128.c:51-52 | the round constants are the powers of x in that field |
| `Fips197.KeyWordIs` | src/crypto/aes128.c:54-82 | every word of the schedule, byte by byte (section 5.2) |
| `Fips197.KeyWordBack` | src/crypto/aes128.c:54-82 | the schedule can be run back, so that no key is lost |
| `Fips197.RoundIs` | src/crypto/aes128.c:167-170 | substitution, row shift, column mix, key addition, in that order |
| `Fips197.CipherIs` | src/crypto/aes128.c:163-173 | a key addition, nine whole rounds, and one without the column mix (section 5.1) |
| `Packet.HeaderFields` | src/packet.h:80-90 | the three fields packed into a header byte come out again |
| `Packet.PathLenFields` | src/packet.h:108-117 | hash size and hop count packed into one byte come out again |
| `Packet.CountSet` | src/packet.h:114-117 | setting a count below 64 changes the count and keeps the hash size |
| `Packet.Parse` | src/packet.c:17-54 | the index-driven parser returns the packet, or the error of the first check that fails |
| `Packet.ParsedIsWire` | src/packet.c:17-54 | a frame that parses is exactly the wire form of the packet it parses to, which is well formed |
| `Packet.WireParses` | src/packet.c:17-86 | a well-formed packet with a clean path tail is parsed back from its wire form |
| `Packet.ParsesIff` | src/packet.c:17-86 | a frame parses to p exactly when p is well formed and canonical and the frame is its wire form: parse and serialise are inverse on all wire frames |
| `Packet.WireArrives` | src/packet.c:17-86 | any well-formed packet arrives as itself but for the bytes of the path buffer not in use |
| `Packet.WireLength` | src/packet.c:56-60 | the length computed beforehand is the length written, at most 254, so a well-formed packet always serialises |
| `Packet.Serialise` | src/packet.c:62-86 | the three error codes exactly when their tests fail; otherwise the wire form is written and the rest of the buffer kept |
| `Packet.CalcHash` | src/packet.c:88-107 | the first 8 bytes of SHA-256 over the type, the path length for TRACE only, and the payload |
| `Packet.HashIgnoresPath` | src/packet.c:88-107 | but for TRACE the dedup hash depends on type and payload only |
| `Packet.HashInputIff` | src/packet.c:88-107 | what is hashed fixes the type and the payload, for a TRACE the path length too, and nothing else |
| `Routes.AppendedHops` | src/mesh.c:1029-1035 | a relayed flood carries its hops and then this node's; at 63 hops the count wraps and the hops are gone |
| `Routes.AppendsIff` | src/mesh.c:1032-1035 | the hop is appended, for every packet the guard lets through, exactly when there were fewer than 63 |
| `Routes.WrapsAt63` | src/mesh.c:1032-1035 | every packet with 63 hops passes the guard on the path length exactly when they are one byte each, and comes out with none |
| `Hub.RelayedWithoutHops` | src/mesh.c:1029-1041 | through the whole reception: any signed advert, as a flood with 63 one-byte hops, is relayed by every repeater that takes it, with no hop at all |
| `Routes.StrippedHops` | src/mesh.c:1051-1054 | a direct packet loses its first hop and keeps the others in order |
| `Routes.FirstHop` | src/mesh.c:1051 | this node is the next hop exactly when the first hash is the start of its key |
| `Routes.RelayKeeps` | src/mesh.c:1029-1061 | whatever is relayed is well formed and keeps header, codes, payload and hash size |
| `Routes.FloodArrives` | src/mesh.c:1029-1041 | a flood relayed by any chain within 63 hops and 64 bytes arrives with the hashes of the chain behind those it had, in order |
| `Routes.DirectArrives` | src/mesh.c:1048-1060 | a direct packet addressed to a chain is stripped by each node in turn and leaves the last with an empty path |
| `Routes.ReplyHops` | src/mesh.c:618-624 | the reply carries the hops received in reverse |
| `Routes.ReplyComesBack` | src/mesh.c:611-630 | end to end: flood out through H1..Hk, reply back through Hk..H1, leaving H1 with an empty path, for every k up to 63 and every hash size within 64 bytes |
| `Routes.AppendInPlace` | src/mesh.c:1034 | the path buffer with this node's hash written behind the hops |
| `Routes.StripInPlace` | src/mesh.c:1053 | the overlapping move to the front |
| `Routes.ReverseInto` | src/mesh.c:621-622 | the loop writes the hops of the received path in reverse |
| `Crypto.RealWorks` | src/crypto/aes128.c:187-197 | the program's own AES, HMAC and SHA-256 have all the properties the protocol lemmas ask for |
| `Crypto.RealIsReal` | src/hmac_sha256.c:12-47 | the functions the protocol lemmas speak of are those the programs compute |
| `Content.ForwardsIff` | src/mesh.c:337-388 | public exactly for adverts and traces; a public group message exactly when some configured channel of its hash has a MAC that verifies; shown public exactly by a channel or a served room |
| `Content.DecideIgnoresPath` | src/mesh.c:337-388 | the decision depends on header, payload and transport code only, so rewriting the path cannot change it |
| `Content.RegionIndex` | src/mesh.c:310-320 | the first served room whose code matches, or -1 when none does |
| `Content.RegionCodeIs` | src/mesh.c:290-308 | the code as sent is the first two bytes of the MAC over type and payload, but for the two reserved values |
| `Content.Classify` | src/mesh.c:337-388 | the two loops decide that, and name the first channel that verifies |
| `Channel.SeparatorFound` | src/mesh.c:448-449 | the first ": " behind a sender is the separator written, or one inside the sender |
| `Channel.BuiltFields` | src/mesh.c:496-530 | a message built is well formed, of type GRP_TXT and the route asked for, with an empty path and a MAC that verifies |
| `Channel.BuiltIsPublic` | src/mesh.c:348-370 | a node holding the channel always classifies it as a public group message |
| `Channel.BuiltDecrypts` | src/mesh.c:424-438 | decrypting it yields the timestamp, the text type and "sender: text" |
| `Channel.SenderIff` | src/mesh.c:777-785 | the sender is split back out exactly when it is under 32 bytes and has no ": "; the body exactly when the sender has none |
| `Channel.BuiltSplits` | src/mesh.c:440-450 | both, for every message that fits, from the packet as built |
| `Channel.SplitsTooEarly` | src/mesh.c:448-449 | the sender "a: b" of the message "c" is read back as the sender "a" of "b: c" |
| `Channel.WritePlain` | src/mesh.c:500-513 | the plaintext padded to whole blocks, or -1 exactly when it does not fit a packet |
| `Channel.BuildTxt` | src/mesh.c:496-530 | the packet built with the program's own AES and HMAC, or -1 |
| `Channel.Decrypt` | src/mesh.c:424-438 | the plaintext in the buffer behind its length and before its terminator, or -1 |
| `Names.AsciiEq` | src/config.c:236-245 | the terminated strings are equal up to ASCII case |
| `Names.SameNameIff` | src/config.c:236-245 | as long as each other, and letter by letter equal or 32 apart among the letters |
| `Names.MatchesIff` | src/config.c:108-114 | a pattern with a final star asks for its front, any other for the whole name |
| `Neighbours.Update` | src/mesh.c:42-72 | the entry of the advertiser, else the first free one, else the oldest, is overwritten |
| `Neighbours.UpdatedHolds` | src/mesh.c:42-72 | no two entries have the same key, before and after, and the advertiser has one |
| `Neighbours.OldestGivesWay` | src/mesh.c:42-72 | at most one entry gives way; one of another node only when the table is full and has none of this key, and then none was heard longer ago |
| `Adverts.BuiltReads` | src/advert.c:14-104 | the kind and the name of an advert built are read back, the name cut to 31 bytes, or to 23 behind a position |
| `Adverts.BuiltSigned` | src/advert.c:44-81 | it is accepted exactly when its signature verifies over key, time and data |
| `Seen.Ring.CheckAndAdd` | src/mesh.c:31-40 | present exactly when among the last 160 recorded; otherwise the oldest gives way |
| `Seen.WindowIs` | src/mesh.c:31-40 | the ring always holds the last 160 of what was recorded |
| `Seen.RecordedTwice` | src/mesh.c:31-40 | between two recordings of one hash lie 160 recordings of other hashes, all different |
| `Seen.RecordedOnce` | src/mesh.c:31-40 | with at most 160 hashes in play none is recorded twice |
| `Seen.Lifetime` | src/mesh.c:31-40 | a hash with k older ones is held exactly while at most k more have been recorded |
| `Seen.StillHeld` | src/mesh.c:31-40 | nothing recorded before a hash is evicted is that hash |
| `Queue.TxQueue.Enqueue` | src/mesh.c:96-114 | into the first free slot, or refused exactly when there is none |
| `Queue.AddTakesOne` | src/mesh.c:96-124 | an enqueue takes one slot when there is one and nothing otherwise |
| `Queue.TxQueue.FreeCount` | src/mesh.c:117-124 | the number of free slots |
| `Queue.TxQueue.PickDue` | src/mesh.c:1074-1088 | the entry the loop picks |
| `Queue.PickIsLeast` | src/mesh.c:1074-1088 | nothing exactly when nothing is due; else a due entry with the lowest priority value, of those the earliest, and of those in the first slot, said of the fields |
| `Queue.AddQueued` | src/mesh.c:96-115 | the multiset of queued entries grows by one on success only |
| `Queue.RemoveQueued` | src/mesh.c:1172 | and shrinks by the one served |
| `Queue.TxQueue.Flush` | src/mesh.c:1124-1128 | everything queued is dropped and counted |
| `MeshProgram.Program.Enqueue` | src/mesh.c:87-115 | refused in silence or when full, else queued and, from RF, offered to the hub |
| `MeshProgram.Program.SendAdvert` | src/mesh.c:1175-1204 | nothing in silence; else the advert is recorded and queued |
| `MeshProgram.Program.IsCompanionName` | src/mesh.c:194-205 | one of the operator's devices, no ON0 call, no affinity repeater, not this node, not heard as anything but a companion |
| `MeshProgram.Program.HotspotWake` | src/mesh.c:210-225 | only a hotspot hearing a companion directly on RF extends its time, and identifies when it was silent |
| `MeshProgram.Program.LearnAffinity` | src/mesh.c:177-187 | the first key byte joins the table once, up to 16 |
| `MeshProgram.Program.PathAffinity` | src/mesh.c:163-174 | whether any hop starts with a byte of that table |
| `MeshProgram.Program.HotspotDecide` | src/mesh.c:240-274 | scope and power for every branch of the decision |
| `Mesh.ScopeIff` | src/mesh.c:240-274 | a hotspot passes on exactly what comes from the mesh, at low power, and what its operator's devices say on RF, at high power; nothing of the hub's goes up |
| `Relay.ForwardedIff` | src/mesh.c:881-1062 | the whole reception: a frame is passed on exactly when it is new, signed by or sent by nobody blocked, shown public, in the scope of a hotspot, routable, not answered here, and the node forwards and is not silent; it is then queued in a free slot with the priority, time and power said in `QueuedFor` |
| `Relay.WakingIdentifies` | src/mesh.c:210-226 | a hotspot that a companion wakes from silence puts its own advert into the queue |
| `Relay.LearnsIff` | src/mesh.c:955-961 | which frames change the neighbour table and the affinity table, and to what |
| `Relay.LearnedHasCause` | src/mesh.c:178-188 | over every run the affinity table holds only first key bytes of affinity repeaters heard |
| `Relay.BlockedIff` | src/config.c:248-271 | who is blocked, by the own list or by that of the hub while its policy is in force |
| `Relay.TurnIs` | src/mesh.c:1116-1185 | a turn: flushed in silence, idle, or one due entry that comes first put off by the backoff or taken out |
| `MeshProgram.Program.Forward` | src/mesh.c:1019-1062 | hotspot scope, then the flood append or the direct strip, then the queue |
| `MeshProgram.Program.ProcessPublicGroup` | src/mesh.c:791-866 | blacklist, wake, local service and forward, in that order |
| `MeshProgram.Program.Admit` | src/mesh.c:963-1012 | traces stay here, nothing goes on when forwarding is off, and the content policy decides the rest |
| `MeshProgram.Program.Heed` | src/mesh.c:934-941 | the neighbour table, the affinity table and the wake of a verified advert heard on RF |
| `MeshProgram.Program.OnRecv` | src/mesh.c:881-1062 | the whole reception of a frame, with its result |
| `MeshProgram.Program.OnBackbone` | src/mesh.c:1064-1071 | a hub frame is received as such and the source restored |
| `MeshProgram.Program.ServiceTx` | src/mesh.c:1116-1173 | flush, idle, postpone or serve; in a state with well-formed entries serialising never fails and the bytes are the wire form of the entry served |
| `Runs.StepKeepsBy` | src/mesh.c:881-1062 | a property kept by recording a hash, by queuing a good packet, by waking and by learning is kept by every step but a transmission |
| `Runs.RelayStaysShareable` | src/mesh.c:1029-1061 | rewriting the path of a public packet leaves it public |
| `Runs.RelaysOnlyPublic` | src/mesh.c:337-388 | in every reachable state every queued or offered relayed packet is an advert whose signature verifies or a group packet shown public, and everything queued is well formed |
| `Runs.TransmittedBalances` | src/mesh.c:1116-1173 | a turn of the transmit service moves entries from the queue to the ledger and loses none |
| `Runs.QueueConserves` | src/mesh.c:87-115 | over every run each enqueued entry is in exactly one place: sent, failed, flushed by silence, or queued |
| `Hotspot.WakesIff` | src/mesh.c:210-225 | a reception sets the end of the time on the air `awake` seconds on exactly when it is a new frame, heard directly on RF from a companion: an advert whose key is not blocked, or a message when the node forwards; any other leaves it alone |
| `Hotspot.CompanionIff` | src/mesh.c:195-208 | who is a companion, in terms of the lists, the ON0 prefix in any case, the own name and the table |
| `Hotspot.OnlyCompanionsWake` | src/mesh.c:210-225 | the one half: only a companion heard directly on RF moves it |
| `Hotspot.AwakeHasCause` | src/mesh.c:210-225 | over every run that end was set by an earlier such frame |
| `Hotspot.TransmitsOnlyAttended` | src/mesh.c:74-79 | every transmission at loop time t has an earlier companion's frame heard at w with t < w + 1000 * awake |
| `Hotspot.SilenceIsQuiet` | src/mesh.c:1118-1130 | once the service has noticed a silence the queue is empty until a companion is heard |
| `Hotspot.NothingStale` | src/mesh.c:1124-1128 | then nothing queued before the silence ever goes out |
| `Stale.StaleIff` | src/mesh.c:1116-1130 | a companion is heard in a silence and the node is on the air until U: the run can go on, in whatever way the main loop allows, so that something queued before is sent before U, exactly when something in the queue is due before U |
| `Stale.LateStaysIn` | src/mesh.c:1116-1130 | when nothing queued is due before U, no continuation sends anything old before U |
| `Stale.NoticedIsEmpty` | src/mesh.c:1118-1130 | when the service has noticed the silence the queue is empty and nothing old can go out |
| `Stale.CompanionWakes` | src/mesh.c:210-225 | a companion's advert, new to it, puts a hotspot on the air until `awake` seconds after it was read, in every state with only companions heard |
| `Stale.TurnAfterWake` | src/main.c:282-317 | the reception reads the clock after the loop did, so the turn of the same iteration, given the loop time, sends an entry queued before the silence that is due |
| `Stale.StaleGoesOut` | src/main.c:282-317 | a run of the main loop with a turn after every reception in which an entry queued before a silence is sent after it: for every hotspot, any two companion adverts with different unseen hashes, any turns in between, and a transmission that lasts beyond the end of the period |
| `Stale.StoryExists` | src/main.c:282-317 | there is such a run for every hotspot and any two such adverts |
| `Hub.HubFrame` | src/mesh.c:881-908 | a hub frame queues at most one entry, the relayed packet; it changes nothing else but the recorded hash: no service, no wake, no neighbour, nothing offered |
| `Hub.HubLeavesSeven` | src/backbone.c:647 | with the 8 free slots asked for, 7 are left, and exactly 7 when 8 were free and the frame was relayed |
| `Hub.BridgesNew` | src/mesh.c:103-108 | a relayed packet is offered to the hub only for an RF frame whose hash was new |
| `Hub.NoBridgeUntil` | src/mesh.c:103-108 | a packet of a hub frame's hash is bridged only after more recordings than its age in the window left, of other hashes: 160 when the hub frame was new |
| `Hub.BridgesIff` | src/mesh.c:103-108 | a packet whose hash is held with k older ones, heard again on RF after other recordings, is bridged exactly when they are more than k |
| `Hub.RecordsOnly` | src/mesh.c:900-908 | receiving records the hash of the frame and no other when the node sends nothing of its own |
| `Hub.BridgedTooSoon` | src/mesh.c:31-40 | for every repeater and any 161 packets with different hashes, a run that hears 160, gets the first from the hub, hears one more, and bridges the first: one hash was recorded since the frame of the hub, not 160 |
| `Bridge.FrameIn` | src/backbone.c:627-634 | a kind, the length, eight more bytes and the frame: the frame is found again, whatever follows |
| `Bridge.FrameOnly` | src/backbone.c:627-634 | no other body carries one |
| `Echo.EchoIsDuplicate` | src/mesh.c:1190-1198 | what a node sends itself and hears again, relayed by others, is a duplicate that changes nothing until 160 other hashes have been recorded since, or as many as its hash had left when it was held before |
| `Echo.ReplyIsHeld` | src/mesh.c:623-629 | so is the reply of a local service |
| `Echo.OwnIsQueued` | src/mesh.c:87-115 | a packet of its own waits for its delay in a slot that was free, at high power on a hotspot; nothing in silence or when full |
| `Bridge.HubFrames.OnFrame` | src/backbone.c:627-661 | rejected, limited, or received by the mesh exactly when the role is granted, the frame is there, a token is left and 8 slots are free; then at least 7 stay free |
| `Network.WireInPlay` | src/packet.c:88-107 | a node that hears a packet transmitted finds the same hash |
| `Network.ForwardedIsNew` | src/mesh.c:900-908 | a frame is relayed only when its hash was not held |
| `Network.RelayedOnce` | src/mesh.c:31-40 | with at most 160 hashes in play a node relays each at most once |
| `Network.FloodsEnd` | src/mesh.c:900-1041 | in any network, with frames heard late, repeatedly, out of order or not at all, every run makes at most 160 relays a node, and no node relays a hash twice |
| `Network.FloodsEndHere` | src/packet.c:88-107 | the same with the program's own primitives, when the frames from outside hash by SHA-256 into a set of at most 160 |
| `Chain.HopPasses` | src/mesh.c:1029-1062 | a frame a node takes is queued, and the entry is heard by the next node as the packet with the path rewritten |
| `Chain.FloodCarried` | src/mesh.c:1029-1041 | a group message flooded through any chain of whole nodes, each parsing, deduplicating, deciding and queueing, arrives with their hashes in order |
| `Chain.DirectCarried` | src/mesh.c:1046-1062 | a direct one naming the chain is carried by it and arrives with an empty path |
| `Chain.CommandAndReply` | src/mesh.c:611-630 | end to end: a command flooded through up to 63 repeaters that hold the channel, and the reply back along the reversed path through the same ones, each by `Received` and the wire |
| `Replay.BitShiftLeft` | src/backbone.c:246-247 | a 64-bit shift moves the bits up and drops those beyond 63 |
| `Replay.Raised` | src/backbone.c:245-251 | a number above the top shifts the bitmap, which then stands for the set with the number |
| `Replay.Lowered` | src/backbone.c:252-258 | a number within 63 of the top sets its bit, likewise |
| `Replay.Window.Check` | src/backbone.c:241-259 | accepts exactly a nonzero number never accepted and above the highest accepted minus 64 |
| `Session.SealedOpens` | src/backbone.c:204-239 | what is sealed opens to the same type, session, number and body |
| `Session.OpensIff` | src/backbone.c:221-239 | and nothing else opens to it |
| `Session.TagCovers` | src/backbone.c:221-239 | what opens has the right magic and version, and a tag that covers all bytes before it |
| `Session.Seal` | src/backbone.c:204-219 | the datagram in the buffer, or 0 and an untouched buffer when it does not fit |
| `Session.OpenDatagram` | src/backbone.c:221-239 | the accumulated comparison of 16 bytes rejects exactly a wrong tag |
| `Session.DeliveredOnce` | src/backbone.c:761-774 | over any sequence of datagrams every body delivered was sealed for this session, and no number is delivered twice |
| `Session.ArrivesIff` | src/backbone.c:767-769 | a sealed body is delivered exactly when its number is acceptable, whatever came before |
| `Session.Receiver.OnDatagram` | src/backbone.c:761-774 | the program delivers those |
| `TokenBucket.Limiter.OnFrame` | src/backbone.c:636-653 | refill, cap, test and spend, first call included |
| `TokenBucket.Bounded` | src/backbone.c:636-653 | in any interval of T ms at most max(1, rate/3) + rate*T/60000 frames pass, with rate 1 for a configured 0, over any calls with a clock that does not go back |
| `TokenBucket.WaitedPasses` | src/backbone.c:636-653 | the other side: the first frame with room passes, and so does every one at least 60000/rate ms after the one before |
| `TokenBucket.Burst` | src/backbone.c:636-653 | the bound is met: of frames all at one time exactly the first max(1, rate/3) pass |
| `TokenBucket.NeverNegative` | src/backbone.c:648-653 | a token is never owed |
| `Paging.PagesHold` | src/backbone.c:518-527 | the pages hold every entry that fits its buffer exactly once, in table order, none over the budget |
| `Paging.PagesGreedy` | src/backbone.c:525 | a page is closed only when the next entry does not fit it |
| `Paging.ReportIs` | src/backbone.c:529-551 | as many bodies as pages, numbered 1 to pages, each at most 1100 bytes |
| `Paging.CountPages` | src/backbone.c:518-527 | the first pass counts the pages |
| `Paging.SendNeighbours` | src/backbone.c:529-551 | the second pass sends exactly the report: what the first pass announced, and the buffer is never full |
| `Paging.Buffer.Add` | src/backbone.c:395-404 | appended whole, or the full flag raised and the text kept |
| `Paging.HeaderIsShort` | src/backbone.c:507 | the heading of a page fits the room kept for it when both numbers are below 100 |
| `Policy.AddAllIs` | src/backbone.c:665-709 | adding entries keeps the first of each kind up to its limit, in order |
| `Policy.AddAllSkips` | src/backbone.c:665-709 | the count of skipped entries is what is over the three limits, in any interleaving |
| `Policy.Set.PolicyAdd` | src/backbone.c:665-695 | an entry of the wrong form is ignored, one over the limit counted, any other appended |
| `Policy.Set.PolicyWalk` | src/backbone.c:699-709 | every entry of a well-formed page is added in order |
| `Policy.CheckPage` | src/backbone.c:699-703 | a page is accepted exactly when no entry runs past its end |
| `Policy.PageRead` | src/backbone.c:695-708 | the entries of a page are those it was made of: kind, length, value, one after the other |
| `Policy.PageMade` | src/backbone.c:695-708 | every page that is accepted was made of entries |
| `Policy.PageOnce` | src/backbone.c:695-708 | and of one sequence of them only |
| `PolicyPages.ParsesIff` | src/backbone.c:714-722 | a body is a page exactly when it is the version, the page, their number and well-formed entries, in these places and limits |
| `PolicyPages.PageCollector.OnPolicy` | src/backbone.c:711-759 | a POLICY datagram does nothing to a node that takes none, is counted when malformed, and is collected otherwise |
| `PolicyPages.PageCollector.Collect` | src/backbone.c:723-757 | stale, refused, restarted, held already, added, or completed: every branch |
| `PolicyPages.PageCollector.OnWelcome` | src/backbone.c:582-583 | a new session collects afresh and keeps what is in force |
| `PolicyPages.InvariantHolds` | src/backbone.c:711-759 | whatever is delivered, what is collected are exactly the flagged pages of one version, every page delivered is held or superseded, and what is in force is complete |
| `PolicyPages.OneCompleteVersion` | src/backbone.c:744-751 | under any loss, reordering and resending the set in force is at every moment one complete version |
| `PolicyPages.NeverBackwards` | src/backbone.c:723-757 | once a set was applied in the session, no page makes the version in force older |
| `PolicyPages.OlderPageIgnored` | src/backbone.c:725-728 | a page of an older version changes nothing about a newer collection |
| `PolicyPages.Converges` | src/backbone.c:711-759 | once every page of the newest version has been delivered, in any order among other pages, that version is in force |
| `PolicyPages.BodiesConverge` | src/backbone.c:711-759 | the same of the bodies delivered, malformed ones among them: once the bodies of all pages of the newest version have come, it is in force |
| `PolicyPages.HoldsAllIff` | src/backbone.c:665-695 | a complete set skips the same number of entries whatever order its pages came in, and holds every entry exactly when none is over a limit |
| `PolicyPages.DeliveredTwo` | src/backbone.c:674-718 | two pages delivered put in force the set that holds their entries in the order of delivery |
| `PolicyPages.OrderDecides` | src/backbone.c:674 | two pages with 33 rooms in all: the collector puts both orders of delivery in force as complete sets of one version, and only one of them has "#b" |
| `PolicyMerge.Config.RegisterChannel` | src/config.c:304-336 | added unless its secret is there; -2 exactly when it is new and the table is full |
| `PolicyMerge.Config.AddRoomEx` | src/config.c:374-422 | trimmed, normalised, refused, found or added with its region key and its channel |
| `PolicyMerge.CompactRooms` | src/config.c:723-733 | the rooms not from the hub move down in order, in three parallel arrays |
| `PolicyMerge.KeepOnly` | src/config.c:734-742 | the channels not from the hub move down in order |
| `PolicyMerge.Config.Compact` | src/config.c:723-742 | the tables hold what is the node's own |
| `PolicyMerge.Config.MergePolicy` | src/config.c:721-759 | the tables and both counts after a merge |
| `PolicyMerge.Config.SetPolicy` | src/config.c:761-784 | the set without blocks of this node, merged |
| `PolicyMerge.MergeKeepsLocal` | src/config.c:721-759 | a merge keeps the local rooms and channels, in order and in front, and stays within 40 rooms and 48 channels |
| `PolicyMerge.MergeServes` | src/config.c:744-758 | behind the own rooms stand those offered, keyed by the digest of their names; each offered is there unless the table is full; and `served` counts those that are |
| `PolicyMerge.AddedListens` | src/config.c:374-424 | a room added brings the channel with its key, unless it is there or the channel table is full |
| `PolicyMerge.NormalIs` | src/config.c:374-392 | the blanks around a room name do not count, and it is stored with one '#'; a bare one or one of 32 bytes and more is refused |
| `PolicyMerge.LastSetDecides` | src/config.c:721-759 | a merge after another merge is the same as that merge alone |
| `PolicyMerge.OnlyLastCounts` | src/config.c:761-784 | after any sequence of sets the result is that of applying only the last |
| `PolicyMerge.CountsAddUpIff` | src/config.c:744-758 | served + skipped equals offered rooms + received skips exactly when the node takes policies or none is offered |
| `PolicyMerge.OfferedNotCounted` | src/config.c:744-747 | a node that takes no policies neither serves nor counts a room offered |
| `PolicyMerge.KeptNames` | src/config.c:768-774 | every blocked name is kept as often as sent but this node's own, which is not |
| `PolicyMerge.KeptKeys` | src/config.c:775-781 | every blocked key is kept as often as sent but this node's own, which is not |
| `Numerals.ParseBack` | src/config.c:280-289 | a decimal number below 2^32 is read back |
| `Numerals.HexBack` | src/util.c:7-44 | the hexadecimal form of any bytes is read back |
| `Numerals.Bin2Hex` | src/util.c:7-17 | two digits a byte and a terminator, or 0 and an untouched buffer |
| `Numerals.Hex2Bin` | src/util.c:28-44 | the bytes, or -1 exactly for an odd length, too many bytes or a character that is no digit |
| `PolicyFile.EqualsFound` | src/config.c:825 | a key ends at the first " = ", whatever the value holds |
| `PolicyFile.LineRead` | src/config.c:823-846 | reading a line that was written sets what it says and goes on behind it |
| `PolicyFile.Save` | src/config.c:788-814 | the file: version, skips, rooms, the names without a line break, keys in hexadecimal |
| `PolicyFile.Load` | src/config.c:816-850 | reading in pieces of 255 bytes, cutting at the line end, splitting at the first " = " and assigning |
| `PolicyFile.SavedLoads` | src/config.c:788-850 | loading what was saved gives version, skips, rooms, names and keys back, but for names with a line break |
| `PolicyFile.RoundTripIff` | src/config.c:788-850 | the same set comes back exactly when no blocked name holds CR or LF, also for names with " = " or a blank in front |
| `PolicyFile.BreakIsLost` | src/config.c:802-804 | a set whose one blocked name ends in LF is loaded without it |
| `Restart.NamesFiltered` | src/config.c:767-774 | the names kept are those of other nodes, in the order sent |
| `Restart.KeysFiltered` | src/config.c:775-781 | the keys kept are those of other nodes, in the order sent |
| `Restart.KeptAgain` | src/config.c:761-784 | dropping this node's own blocks a second time, as loading the file does, drops nothing more |
| `Restart.OwnTablesDecide` | src/config.c:721-759 | merging a set over tables with hub entries is merging it over the node's own |
| `Restart.RestartRestores` | src/config.c:761-850 | a node that restarts with its own rooms and channels and loads the file saved when a set was applied has the same rooms, channels, blocks and counts as before, exactly when no blocked name in force has a line break |

## Left out

- Sockets, name resolution, the HELLO/WELCOME handshake and RESET, SPI, GPIO, the radio driver: input and output. A session starts with its keys and number.
- Ed25519 and X25519 above the field layer, SHA-512, Salsa20 and Poly1305: signature verification is a parameter of a node.
- Web page, command line, monitor, logging, statistics counters, STATUS, the key tables of `config_set` and `config_get`: long and easy. `config_policy_save` and `config_policy_load` are modelled on the text of the file; failures of opening, closing and renaming it are not.
- The texts of local services (ping, probe, time, help, mailbox), APRS and airtime: what a service sends, or that it sends nothing, is an input of the step; that it is recorded and queued as the node's own is modelled. What is armed for later (a probe, the time at the next minute) is an event that may happen at any step.
- Configuration changes while a node runs: the configuration is fixed, except in `PolicyMerge`.
- `backbone_offer`: what is handed to it is modelled, not the filter on the granted role and on zero-hop packets, which only takes offers away.
- `neighbour_json`: the text of a neighbour is a parameter; an entry of length 0 or of 512 bytes and more stands for one that does not fit.
- TokenBucket.Limiter.OnFrame: tokens are real numbers, so rounding of the program's doubles is not modelled.
- TokenBucket.Burst: likewise on real numbers.
- TokenBucket.NeverNegative: likewise on real numbers.
- TokenBucket.Bounded: tokens are real numbers, so rounding of the program's doubles is not modelled; the clock is positive and does not go back.
- Sha256.Context.Update: for fewer than 2^32 bytes in one call, since the program's 32-bit index would never end beyond; the whole message may be longer, with its bit count modulo 2^64 as in the program.
- PolicyFile.Save: the comment on top of the file is a parameter; any one short line starting with "#" does.
- Bridge.HubFrames.OnFrame: the observation reported to the hub is not modelled, nor a session without a mesh behind it, where a frame takes a token and goes nowhere.
- Neighbours.Update: an entry holds key, name, kind and time; signal, hop count and the number of adverts are shown and decide nothing.
- MeshProgram.Program.ProcessPublicGroup: what a local service answers is an input with at most one reply, so the commands themselves are not decided.
- MeshProgram.Program.OnRecv: likewise, and the counters are left out.
- Session.Receiver.OnDatagram: the state of the session and the dispatch on the type of the datagram are left out; a body delivered is what is promised.
- PolicyPages.PageCollector.Collect: the set put in force still has blocks of this node; the program drops them when it applies the set, which is `PolicyMerge.Config.SetPolicy`.
- PolicyPages.NeverBackwards: only once a set was applied in the session; the first set of a session may be older than the one kept from the session before, as in the program.
- Routes.ReplyComesBack: routing only, from node to node; whole nodes with wire, ring, policy and queue are in `Chain.CommandAndReply`.
- MeshProgram.Program: the ring, the queue and the neighbour table are arrays changed in place; the small affinity table is a sequence that is reassigned, and a packet is a value.
- PolicyMerge.Config: a room is three entries of three arrays, as in the program; a channel is one value of one array.
