# Shadowsocks data path, verified

A Dafny model of the data path of shadowsocks-rust and of the bookkeeping around it. The
cryptography is a parameter with the laws that are relied on (opening undoes sealing, a sealed
text is a tag longer, a keystream is indexed by block). The network is an adversary: every poll
may be not ready, fail, or move any number of bytes that the buffers allow, so what is proved
holds under every schedule. Random draws, clocks and what a probe measures are parameters too.

- `Bytes`, `Nonce`, `Aead`: byte strings, the counting nonce, the chunk format and a decoder of a
  whole wire. `Transport`: the adversarial byte stream and the exact-read and write-all loops.
- `AeadWriter`, `AeadReader`, `CryptoStream`, `Tunnel`: the poll-driven AEAD stream, its salt
  handshake, and client and server end to end. `StreamIo`: the same for stream ciphers.
- `Replay`: the two-generation nonce filter. `UdpCrypto`: UDP packets and their replay check.
- `UdpAssociation`, `Startup`: two protocols of concurrent tasks as state machines. A run is any
  sequence of atomic actions; an action that is not enabled changes nothing. `UdpProgress` and
  `Rechoosing` say what these machines get done once their tasks are given their turns.
- `SodiumStream`, `TableCipher`, `KeyDerivation`: stream-cipher arithmetic.
- `Statistics`: the load balancer's score. `Socks5`, `Socks5Reply`: wire formats.
- `HttpHop`: hop-by-hop headers of the HTTP proxy.

Objects that the program updates in place are classes here, with ghost fields for their history.
Methods such as `Tunnel.Run` build such objects and drive them through an arbitrary schedule;
their postconditions are the statements about whole runs.

Where code and comments disagree the code is followed. The comments at
src/relay/tcprelay/aead.rs:54 and 243 ask for chunks smaller than 0x3FFF; the code allows 0x3FFF,
and its reader accepts every 16-bit length.

Some properties one would expect are false of the code. Each has a lemma with the exact
condition under which it holds: `Socks5.RoundTripIff` (IPv6 flow label and scope are not on the
wire), `Socks5.HandshakeRoundTripIff` (the method count is truncated to a byte),
`Socks5.RequestSpelling`, `Socks5.PacketSpelling` and `Socks5Reply.Spelling` (reserved bytes are
ignored), `Socks5Reply.RoundTripIff` (also a known code in `OtherReply`),
`SodiumStream.CutInvariantIff` (the byte counter or the block counter starts over),
`HttpHop.DecisionCarriedIff` (the default is never written out), `Statistics.ScoreBoundIff` (a
probe that runs into the timeout is recorded with the time it took, as
src/relay/loadbalancing/server.rs:521-531 does, and from 2005 ms on the score can pass 1000).

## Model

| member | source | states |
|---|---|---|
| `Tunnel.Run` | src/relay/tcprelay/proxy_stream.rs:340-367 | for every address, payload, split into writes, interleaving, transport answers, hang-up and server past: the server parses exactly the client's address, relays a prefix of the payload, never more than the schedule offered or asked for, and at a clean end has exactly what was acknowledged; decryption never fails; an end or a truncation needs a hang-up in the schedule, a truncation an early one; a salt that the server's past reports makes it read nothing, and only such a salt is refused. If the transport is willing from some poll on, every write beyond `2 * from` acknowledges a byte until all is acknowledged, every read behind the hang-up beyond `from` gets a byte until the server is done, a hang-up after enough writes finds everything flushed, and without failures the server then has the whole payload or has refused the salt |
| `Tunnel.HonestWire` | src/relay/tcprelay/aead.rs:87-207 | any prefix of what an honest writer sends decodes without failure to a prefix of the plaintext, stands at a boundary only with the plaintext of some of the first chunks, and the whole wire gives the whole plaintext |
| `Tunnel.Reading.TakeParses` | src/relay/tcprelay/server.rs:51-63 | reading the address byte by byte never takes more than the address wants; an early end is an unexpected end of file, and an address the codec rejects ends the connection |
| `Tunnel.Server.Poll` | src/relay/tcprelay/server.rs:51-63 | every poll against any peer keeps the server sound, fails to decrypt only where the one-shot decoder breaks, reports truncation only if the stream really ended inside salt, frame or address, and leaves the server active only with something read or if the transport let it wait |
| `Tunnel.Client.Poll` | src/relay/tcprelay/proxy_stream.rs:357-359 | the address comes first, then the payload, with unfinished writes retried as they were; over a willing transport every write of something is progress |
| `Tunnel.Client.SealedIsPrefix` | src/relay/tcprelay/aead.rs:234-310 | what was sealed is a prefix of address and payload, what the transport took a prefix of its wire, and both are everything once flushed |
| `Tunnel.Client.BoundaryIsAcked` | src/relay/tcprelay/aead.rs:296-305 | a decoder at a boundary at the end of what was sent has exactly the acknowledged bytes |
| `Tunnel.Connection.ReadsPrefix` | src/relay/tcprelay/crypto_io.rs:160-181 | in every reachable state the server has read a prefix of what the client sends; at a clean end it is exactly what was acknowledged |
| `Tunnel.Connection.FlushedIsNotTruncated` | src/relay/tcprelay/aead.rs:176-207 | a client that handed everything over is never mistaken for a cut connection |
| `Tunnel.Connection.NeverBreaks` | src/relay/tcprelay/aead.rs:116-174 | what an honest client sent never fails to open, wherever it is cut |
| `Tunnel.Connection.Guarantee` | src/relay/tcprelay/crypto_io.rs:121-181 | all safety statements about a connection in every reachable state |
| `Tunnel.Finished` | src/relay/tcprelay/crypto_io.rs:160-181 | how far writes and reads have come, and what a run with enough of both has come to, over a willing transport |
| `Tunnel.Arrives` | src/relay/socks5.rs:218-288 | a reader that follows the address codec has the carried address and a prefix of the payload behind it |
| `Aead.ParseSplit` | src/relay/tcprelay/aead.rs:87-207 | decoding in two pieces, cut anywhere, is decoding in one |
| `Aead.ParseFrames` | src/relay/tcprelay/aead.rs:252-310 | decoding undoes framing for every list of chunks, empty ones included, with two nonces a chunk on both sides |
| `Aead.ParsePrefix` | src/relay/tcprelay/aead.rs:87-207 | a cut wire never fails to open and gives a prefix of the plaintext |
| `Aead.BoundaryIff` | src/relay/tcprelay/aead.rs:176-207 | the decoder stands at a boundary exactly when the wire was cut between two frames |
| `Aead.ParseLeft` | src/relay/tcprelay/aead.rs:176-207 | a waiting decoder never holds a complete step |
| `Aead.ParseFrame` | src/relay/tcprelay/aead.rs:286-300 | one frame decodes to its chunk and moves the nonce on by two |
| `Aead.InsideFrame` | src/relay/tcprelay/aead.rs:176-207 | strictly inside a frame a decoder is not at a boundary |
| `Aead.BreaksAtLength` | src/relay/tcprelay/aead.rs:116-140 | behind any frames, a length that does not open breaks the decoder with the plaintext of those frames |
| `Aead.BreaksAtData` | src/relay/tcprelay/aead.rs:142-174 | and so does a chunk that does not open behind a length that does |
| `Aead.UnderCounter` | src/crypto/aead.rs:142-151 | operation i seals and opens under exactly the nonce whose little-endian value is i mod 256^n |
| `Aead.FramesUnder` | src/relay/tcprelay/aead.rs:281-295 | the wire of any chunks is, chunk by chunk, the high and low byte of its length and then the chunk, each sealed under the next of the counting nonces |
| `Aead.Cipher.Encrypt` | src/crypto/sodium.rs:198-228 | operation k seals under the k-th nonce, which is the one the cipher holds, and moves the nonce on; the nonces used so far count up from zero |
| `Aead.Cipher.Decrypt` | src/crypto/ring.rs:123-150 | operation k opens under the k-th nonce, which is the one the cipher holds; whether a failure moves it on is left open |
| `AeadReader.ReadWire` | src/relay/tcprelay/aead.rs:87-207 | over any bytes from anyone and any schedule a prefix of the one-shot plaintext is read; the answer that ends the stream comes when all of it was read and is the right one (clean end exactly at a frame boundary, unexpected end exactly at any other truncation, decryption failure exactly where the decoder breaks); and it comes once there were more polls than the transport can delay and bytes to deliver |
| `AeadReader.ReadStep` | src/relay/tcprelay/aead.rs:87-114 | one poll of a finished wire delivers something, was delayed by the transport, or gives the right ending |
| `AeadReader.DecryptedReader.PollReadDecrypted` | src/relay/tcprelay/aead.rs:87-114 | each poll keeps delivered bytes and undelivered tail equal to the plaintext of the complete frames consumed; an empty answer means the wire ended between frames; waiting and transport errors happen only if the transport's last answer was one |
| `AeadReader.DecryptedReader.Refill` | src/relay/tcprelay/aead.rs:116-174 | one length or data step against the one-shot decoder, or the end of the stream |
| `AeadReader.DecryptedReader.OpenStep` | src/relay/tcprelay/aead.rs:127-161 | a completed step moves the decoder's state exactly as the one-shot decoder's |
| `AeadReader.PlainGrows` | src/relay/tcprelay/aead.rs:87-207 | more wire only adds plaintext, and a broken wire stays broken where it was |
| `Transport.ReadExact` | src/relay/tcprelay/aead.rs:176-207 | buffers exactly what the source gave; an end before the first byte is clean only where that is allowed; it stops early only if the source ended, waited or failed |
| `Transport.SendAll` | src/relay/tcprelay/aead.rs:296-305 | hands over a contiguous part of the buffer and is ready exactly when all of it is gone; otherwise the sink's last answer is to blame |
| `AeadWriter.EncryptedWriter.PollWriteEncrypted` | src/relay/tcprelay/aead.rs:234-250 | sent plus buffered bytes are salt and frames; a re-poll seals nothing, a fresh poll exactly one chunk of at most 0x3FFF bytes; acknowledged bytes are the plaintext of the completed frames; anything but ready is the transport's doing |
| `AeadWriter.WriteAll` | src/relay/tcprelay/aead.rs:234-310 | for every data, transport and number of polls: the chunks are the data cut after every 0x3FFF bytes; what was taken is a front of the salt and of lengths and chunks, each sealed under a nonce of its own, counting up from zero and pairwise different up to 256^n operations; all of it once everything is acknowledged, which enough polls of a willing transport bring about |
| `AeadWriter.Written` | src/relay/tcprelay/aead.rs:252-310 | the same of every state in between |
| `AeadWriter.EncryptedWriter.WireUnder` | src/relay/tcprelay/aead.rs:262-295 | in every valid state the wire is the salt and everything sealed under the nonces the cipher really used |
| `AeadWriter.NextPiece` | src/relay/tcprelay/aead.rs:240-262 | the chunk taken is the next piece of the data, and a chunk in flight is retried as it was |
| `AeadWriter.EncryptedWriter.Seal` | src/relay/tcprelay/aead.rs:262-295 | the next frame uses the next two nonces; the salt goes in front of the first one only |
| `AeadWriter.EncryptedWriter.SealFrame` | src/relay/tcprelay/aead.rs:281-288 | a frame is the sealed length and the sealed data under two consecutive nonces |
| `AeadWriter.EncryptedWriter.Flush` | src/relay/tcprelay/aead.rs:296-305 | the chunk is acknowledged exactly when its frame is gone |
| `AeadWriter.WireSnoc` | src/relay/tcprelay/aead.rs:252-310 | one more chunk appends one frame, with the salt only in front of the first |
| `AeadWriter.CutBeforeLast` | src/relay/tcprelay/aead.rs:252-310 | a wire whose last frame is not all gone, cut at a boundary, was cut right before that frame |
| `Nonce.IncreaseNonce` | src/crypto/aead.rs:142-151 | the in-place loop is an increment with carry that wraps |
| `Nonce.SuccessorCounts` | src/crypto/aead.rs:142-151 | incrementing the k-th nonce gives the next one |
| `Nonce.NonceValue` | src/crypto/ring.rs:51-57 | the k-th nonce of n bytes is the little-endian encoding of k mod 256^n |
| `Nonce.NonceDigits` | src/crypto/aead.rs:142-151 | byte j of the k-th nonce is digit j of k in base 256, lowest first |
| `Nonce.NonceFromValue` | src/crypto/ring.rs:51-57 | a byte string is the k-th nonce exactly when its value is k mod 256^n |
| `Nonce.CountingDistinct` | src/crypto/aead.rs:142-151 | nonces that count up from zero are pairwise different up to 256^n of them |
| `Nonce.NonceRepeatsIff` | src/crypto/ring.rs:51-57 | two operations share a nonce exactly when their numbers agree mod 256^n |
| `Nonce.NonceUnique` | src/crypto/aead.rs:142-151 | no nonce repeats within 256^n consecutive operations |
| `Nonce.ZeroNonce` | src/crypto/ring.rs:44-48 | the all-zero nonce is the counter at zero |
| `CryptoStream.FreshNonce` | src/relay/tcprelay/crypto_io.rs:63-109 | the salt used is the first draw that was not reported, the only one remembered; none if all were reported |
| `CryptoStream.FirstFreshMeans` | src/relay/tcprelay/crypto_io.rs:63-109 | the salt is the first draw that is not reported, and missing exactly when all are reported |
| `CryptoStream.CryptoReader.Handshake` | src/relay/tcprelay/crypto_io.rs:121-158 | the salt is read once and checked against the replay memory before any session key is used |
| `CryptoStream.CryptoReader.PollRead` | src/relay/tcprelay/crypto_io.rs:160-168 | reading through the handshake stands where the one-shot decoder of salt and frames does |
| `CryptoStream.CryptoReader.Decodes` | src/relay/tcprelay/crypto_io.rs:121-168 | in every valid state the delivered bytes are a prefix of the one-shot plaintext, all of it at the end |
| `Replay.Screen` | src/context.rs:88-111 | each of any sequence of nonces is reported exactly when the filters, holding what was accepted before it, answer for it; a nonce let through and shown again after at most N further acceptances is reported; with exact filters only one of the last 2N accepted is |
| `Replay.PingPongBloom.Remembers` | src/context.rs:88-111 | the remembered items are exactly the last bloom_count[0]+bloom_count[1] accepted ones, each count is at most N, and the total at least N+1 or everything |
| `Replay.PingPongBloom.CheckAndSet` | src/context.rs:88-111 | the two filters in place hold what the recursive definition of the two generations says; a reported item changes nothing, any other is accepted |
| `Replay.PingPongBloom.CheckNonceAndSet` | src/context.rs:250-259 | the empty nonce is never reported and never remembered |
| `Replay.PingPongBloom.constructor` | src/context.rs:62-81 | a new memory has accepted nothing |
| `Replay.RecentIsReported` | src/context.rs:88-111 | whatever is among the last N+1 accepted is reported |
| `Replay.HoldsTheLast` | src/context.rs:88-111 | the two generations are exactly the last accepted items, at least N+1 of them or all, at most N each |
| `Replay.WindowIsTight` | src/context.rs:95-105 | with exact filters a nonce can be forgotten by the (N+1)-th acceptance after it |
| `Replay.AcceptedApart` | src/context.rs:88-111 | a nonce is accepted again only after more than N others |
| `Replay.DistinctAccepted` | src/context.rs:88-111 | with exact filters different nonces are all accepted |
| `Replay.PastReports` | src/context.rs:250-259 | a memory reports a nonce among its last N+1 accepted and, with exact filters, none that it was never shown |
| `Replay.Recall` | src/context.rs:250-259 | a memory that was shown nonces has accepted exactly those it did not report |
| `Replay.ReportedIsRecent` | src/context.rs:88-111 | with exact filters whatever is reported is among the last 2N accepted |
| `Replay.AcceptedAt` | src/context.rs:88-111 | the nonce let through at i is behind only those let through later |
| `StreamIo.Run` | src/relay/tcprelay/stream.rs:42-159 | for every split-invariant cipher pair and schedule the receiver has a prefix of what is sent, never more than the schedule offered or asked for, at the end at least what was acknowledged and everything after a flush; an end or a truncation needs a hang-up; over a transport that is willing from some poll on all but so many writes acknowledge a byte and all but so many reads behind the hang-up get one, enough writes before the hang-up flush everything, and without failures the receiver then ends with all of it |
| `StreamIo.EncryptedWriter.PollWriteEncrypted` | src/relay/tcprelay/stream.rs:110-159 | the wire is the IV, once and first, then the ciphertext of everything taken; a re-poll encrypts nothing; anything but ready is the transport's doing |
| `StreamIo.DecryptedReader.PollReadDecrypted` | src/relay/tcprelay/stream.rs:42-81 | delivered bytes and undelivered tail are the decryption of the bytes consumed |
| `StreamIo.DecryptsPrefix` | src/relay/tcprelay/stream.rs:42-81 | a prefix of the ciphertext decrypts to a prefix of the plaintext |
| `StreamIo.DecryptsAtLeast` | src/relay/tcprelay/stream.rs:42-81 | whoever has the ciphertext of something decrypts at least that |
| `StreamIo.AckedIsSent` | src/relay/tcprelay/stream.rs:118-159 | the ciphertext of everything acknowledged is on the wire |
| `StreamIo.Connection.Received` | src/relay/tcprelay/stream.rs:42-159 | prefix, end and failures in every reachable state |
| `StreamIo.Sender.SentIsPrefix` | src/relay/tcprelay/stream.rs:110-159 | what was sent is a prefix of IV and ciphertext, all of it once flushed |
| `SodiumStream.CutInvariantIff` | src/crypto/sodium.rs:60-145 | every cut into slices of every stream of a given length gives the data masked with one keystream exactly when the length is at most 2^32 bytes on a 32-bit machine, and on a 64-bit one 2^38 for ChaCha20-IETF and 2^64 for the others |
| `SodiumStream.OneKeystream` | src/crypto/sodium.rs:60-86 | within that length the calls together mask the whole data from offset 0 |
| `SodiumStream.KeystreamRestarts` | src/crypto/sodium.rs:64-86 | for every longer stream: written byte by byte, the byte behind the limit is masked with the first byte of the keystream again |
| `SodiumStream.RoundTrip` | src/crypto/sodium.rs:60-86 | two ends that cut the stream differently give the data back within that length |
| `SodiumStream.ProcessAll` | src/crypto/sodium.rs:148-150 | the object computes the specified result for any pieces |
| `SodiumStream.SodiumStreamCipher.Process` | src/crypto/sodium.rs:64-86 | one call masks from its keystream position and moves the counter on by the data's length, wrapping around |
| `SodiumStream.PaddedXor` | src/crypto/sodium.rs:60-86 | padding to the block start and cutting it off again masks from the start position |
| `Bytes.XorBit` | src/crypto/sodium.rs:60-86 | masking sets a bit exactly where data and keystream differ |
| `SodiumStream.StartExactIff` | src/crypto/sodium.rs:64-86 | a call starts at its own stream position exactly until the byte counter or the block counter starts over |
| `SodiumStream.StreamLaws` | src/crypto/sodium.rs:60-86 | a keystream cipher meets the laws the stream-cipher connection relies on |
| `TableCipher.RoundTrip` | src/crypto/table.rs:23-72 | for every digest, key and message, decrypting with the separately built table undoes encrypting; what is sent is looked up in the last table of the shuffle of the first half of the key's digest, little-endian |
| `TableCipher.TableCipher.constructor` | src/crypto/table.rs:23-59 | the encrypting table is the last table of the key's shuffle and the decrypting one its inverse |
| `TableCipher.TableCipher.Process` | src/crypto/table.rs:61-72 | every byte is replaced by its table entry |
| `TableCipher.Shuffle` | src/crypto/table.rs:30-39 | 1023 in-place rounds, each a stable sort by the remainders, from the numbers in order; the result is the specified shuffle and a permutation of 0..255 |
| `TableCipher.SortIsRound` | src/crypto/table.rs:36-38 | a stable sort is a permutation ordered by `a % (x + i)` in which numbers of equal remainder keep their order |
| `TableCipher.OfRankOrder` | src/crypto/table.rs:36-38 | the order of two numbers of equal remainder is their order among the numbers of that remainder |
| `TableCipher.ShuffledIsPermutation` | src/crypto/table.rs:30-39 | the table stays a permutation through every round, for every key |
| `TableCipher.StableSortUnique` | src/crypto/table.rs:34-38 | a stable sort by a ranking has one result, so both ends agree whatever their sort |
| `TableCipher.SortBy` | src/crypto/table.rs:34-38 | the in-place sort orders the numbers by `a % (x + i)` and leaves those of equal remainder in the order they had |
| `TableCipher.StableSortIs` | src/crypto/table.rs:34-38 | the specified sort is sorted and keeps elements of equal rank in order |
| `TableCipher.StableSortPermutes` | src/crypto/table.rs:34-38 | any stable sort keeps every element as often as before |
| `KeyDerivation.ClassicBytesToKey` | src/crypto/cipher.rs:372-401 | the key is the first key_size bytes of the digest chain: its first 16 bytes are the digest of the password, every later 16 the digest of the 16 before them and the password |
| `KeyDerivation.ChainIsBlocks` | src/crypto/cipher.rs:388-397 | any start of the chain is made of such blocks of 16, the last one as far as it goes |
| `KeyDerivation.DeriveTwice` | src/crypto/cipher.rs:372-401 | the key does not depend on the IV size, and a shorter key is a prefix of a longer one |
| `KeyDerivation.KeysAgree` | src/crypto/cipher.rs:372-401 | two starts of one chain agree as far as the shorter goes |
| `Statistics.ScoreBound` | src/relay/loadbalancing/server.rs:58-99 | with latencies of at most B every reachable score, stale fields included, is at most 600 + B / 5, or 800 for B below 1000 |
| `Statistics.ScoreIs` | src/relay/loadbalancing/server.rs:78-99 | the score of every history, exactly: the floor of a tenth of the median, 600 times the failure rate and 200 times the deviation relative to one probe at 0 and one at 2000 ms |
| `Statistics.ScoreMonotone` | src/relay/loadbalancing/server.rs:88-95 | a server that is slower, fails more often and varies more never scores lower |
| `Statistics.OneLatency` | src/relay/loadbalancing/server.rs:101-161 | one answer after x ms among e failures, in whatever order, scores the floor of x / 10 + 600 e / (e + 1) |
| `Statistics.TwoLatencies` | src/relay/loadbalancing/server.rs:101-161 | one answer at once and one after x ms score the floor of (x / 2) / 10 + x / 10, with x / 2 rounded down |
| `Statistics.VarianceIs` | src/relay/loadbalancing/server.rs:141-158 | mean and variance kept, by their laws: mean times n is the sum, variance times n - 1 the sum of the squared distances |
| `Statistics.OlderForgotten` | src/relay/loadbalancing/server.rs:101-110 | only the last 99 probes count once two of them were answered |
| `Statistics.OldestCounts` | src/relay/loadbalancing/server.rs:101-110 | and all of those do: a failure before 98 prompt answers costs 6, before 99 nothing |
| `Statistics.WorstScore` | src/relay/loadbalancing/server.rs:78-161 | and that is attained: two probes of 0 and B, then failures until both have left the window |
| `Statistics.WorstFields` | src/relay/loadbalancing/server.rs:112-161 | the fields of the worst history: stale median B, stale variance B^2 / 2, failure rate 1 |
| `Statistics.ScoreBoundIff` | src/relay/loadbalancing/server.rs:78-99 | every score of every history with latencies of at most B is at most 1000 exactly when B is at most 2004; 1000 is attained at the timeout |
| `Statistics.VarianceBound` | src/relay/loadbalancing/server.rs:58-65 | the corrected sample variance of latencies of at most B is at most B^2 / 2, which at the timeout is the normalizing one |
| `Statistics.Normalized` | src/relay/loadbalancing/server.rs:78-99 | the normalized deviation is at most the normalized largest latency, and equal for the largest variance |
| `Statistics.DeviationBound` | src/relay/loadbalancing/server.rs:141-158 | the squared deviations of n values in 0..M add up to at most n M^2 / 4 |
| `Statistics.InRange` | src/relay/loadbalancing/server.rs:112-161 | median and variance, or the stale or initial ones, are in range in every reachable state |
| `Statistics.FailRateInRange` | src/relay/loadbalancing/server.rs:117-127 | the failure rate is a fraction |
| `Statistics.ServerStatisticData.PushScore` | src/relay/loadbalancing/server.rs:101-110 | after any pushes the queue is the last 99 scores and every field what the whole history says |
| `Statistics.ServerStatisticData.RecalculateScore` | src/relay/loadbalancing/server.rs:112-161 | failure rate, median and deviation are those of the window, kept where the window has too few latencies |
| `Statistics.ServerStatisticData.Collect` | src/relay/loadbalancing/server.rs:117-124 | the queue splits into its latencies in order and its errors |
| `Statistics.MedianIsMiddle` | src/relay/loadbalancing/server.rs:129-140 | the median is the mean of the elements of the middle ranks, independent of the sort |
| `Statistics.SortedIsRanked` | src/relay/loadbalancing/server.rs:129-140 | position k of the sorted latencies has rank k |
| `Statistics.RankedUnique` | src/relay/loadbalancing/server.rs:129-140 | a rank determines its value |
| `Statistics.MiddleOf` | src/relay/loadbalancing/server.rs:129-140 | the middle computed from the sorted latencies is the median |
| `Statistics.Spread` | src/relay/loadbalancing/server.rs:141-158 | mean and variance in two passes are those of the unsorted latencies |
| `Statistics.WindowSlides` | src/relay/loadbalancing/server.rs:101-110 | pushing and popping keeps the last 99 |
| `Startup.ReturnsInformed` | src/relay/loadbalancing/server.rs:341-433 | in every interleaving the picked index is in range, and the constructor returns only after every server has a probe and the pick is the first least of scores read after those probes |
| `Startup.NeverStuck` | src/relay/loadbalancing/server.rs:341-433 | until the constructor has returned some step brings it closer |
| `Startup.CanReturn` | src/relay/loadbalancing/server.rs:341-433 | every run can be continued to one in which the constructor returns |
| `Startup.MustReturn` | src/relay/loadbalancing/server.rs:341-433 | the return cannot be avoided: every run in which each task is given its turns `4 n + 7` times over has returned |
| `Startup.RoundCloser` | src/relay/loadbalancing/server.rs:341-433 | every round in which each task is given its turns brings the return closer, whatever comes between |
| `Startup.KeyStays` | src/relay/loadbalancing/server.rs:341-433 | a step that brings the return closer stays to be taken until some such step is |
| `Startup.NeverFurther` | src/relay/loadbalancing/server.rs:341-433 | no step of any task takes the constructor further from returning |
| `Startup.InvAlways` | src/relay/loadbalancing/server.rs:341-433 | both barriers count right and nobody passes one early |
| `Startup.ChoiceKept` | src/relay/loadbalancing/server.rs:300-326 | the choosing loop tracks the first least score sampled so far |
| `Rechoosing.KnownIsChosenBy` | src/relay/loadbalancing/server.rs:305-326 | once the constructor has returned and the choosing task was given its turns `2 n + 10` times over, among whatever else happens, the pick is the first least of scores each read after every probe and failure known before |
| `Rechoosing.ProbesRecorded` | src/relay/loadbalancing/server.rs:341-433 | in every run each server's record is exactly the checks and reported failures taken of it, once each and in order |
| `Rechoosing.RoundChooses` | src/relay/loadbalancing/server.rs:405-420 | every stretch that gives the choosing task its turns takes it on |
| `Rechoosing.FreshLong` | src/relay/loadbalancing/server.rs:305-326 | from the second round finished on, no sample is older than what was known before |
| `Rechoosing.TurnStays` | src/relay/loadbalancing/server.rs:405-420 | the step the choosing task has to take stays to be taken until it is |
| `UdpCrypto.Exchange` | src/relay/udprelay/crypto_io.rs:35-181 | for a sender and a receiver with any past: a packet is sent exactly when some draw is not reported, under the first such draw; it arrives exactly when the receiver does not report that nonce; shown again among any nonces it is refused while at most N of them were accepted, and its own sender refuses it at once; only a method without nonce accepts replays |
| `UdpCrypto.EncryptPayload` | src/relay/udprelay/crypto_io.rs:35-112 | the packet is nonce and ciphertext under the first draw not reported, which is remembered |
| `UdpCrypto.DecryptPayload` | src/relay/udprelay/crypto_io.rs:115-181 | too short exactly below IV, or salt and tag; otherwise repeated, undecryptable or the payload; the nonce is remembered before anything is decrypted, a short packet leaves no trace |
| `UdpCrypto.UnsealsPacket` | src/relay/udprelay/crypto_io.rs:115-181 | opening undoes sealing |
| `UdpCrypto.PacketLayout` | src/relay/udprelay/crypto_io.rs:78-112 | a packet of an AEAD method is the salt and the payload sealed under the key derived from it, with an all-zero nonce |
| `UdpCrypto.StillReported` | src/context.rs:88-111 | a nonce with at most N accepted after it is reported |
| `UdpAssociation.AnswersAreGenuine` | src/relay/udprelay/server.rs:229-266 | in every run each datagram sent to a client decrypts to sender and body of one received on a socket opened for that client, sent after the check found an association of that client |
| `UdpAssociation.AnswersInOrder` | src/relay/udprelay/server.rs:297-326 | no datagram is answered twice and the answers of one association leave in the order heard |
| `UdpProgress.DatagramAnswered` | src/relay/udprelay/server.rs:229-326 | a datagram that a remote sends back is answered: heard by a living task, handed over once the response channel has room, and then, with the responder given its turns `3 * 1024 + 2` times over, no send failing and the client in the map at the check, an answer to that client was sent that decrypts to the sender's address and the body |
| `UdpProgress.RoundAnswers` | src/relay/udprelay/server.rs:297-326 | every stretch that gives the responder its turns takes the answer a step on, whatever else happens |
| `UdpProgress.OnItsWayKept` | src/relay/udprelay/server.rs:297-326 | no step takes an answer back, and every step of the responder takes it on |
| `UdpProgress.PendingWaitsLong` | src/relay/udprelay/server.rs:250-263 | an encrypted answer waits for room in the channel through whatever happens elsewhere |
| `UdpAssociation.RelayedInOrder` | src/relay/udprelay/server.rs:89-107 | the relaying task takes the packets of its association in arrival order, none lost or doubled, all of them before it ends |
| `UdpProgress.PacketRelayed` | src/relay/udprelay/server.rs:331-395 | a packet that arrives at the listening server goes to the association of its client, an old or a new one, and once listener and relaying task were given their turns often enough for the packets ahead of it, that task has taken it right behind those |
| `UdpProgress.RoundRelays` | src/relay/udprelay/server.rs:89-107 | every stretch that gives listener and relaying task their turns takes the packet on |
| `UdpProgress.ExpiredIsReleased` | src/relay/udprelay/server.rs:89-138 | an association that has expired and that the listener has let go is released: given their turns often enough, both its tasks have ended with an empty queue |
| `UdpProgress.RoundEnds` | src/relay/udprelay/server.rs:89-138 | every stretch that gives these tasks their turns takes them towards their end |
| `UdpProgress.ChannelsBounded` | src/relay/udprelay/server.rs:76-77 | in every run neither the response channel nor the queue of any association holds more than 1024 |
| `UdpProgress.OwnAnswersRefused` | src/relay/udprelay/server.rs:253-257 | in every run the nonce of an answer sent is among those accepted and reported while at most N were accepted since, so a reflected answer is refused |
| `UdpAssociation.ForwardsAreGenuine` | src/relay/udprelay/server.rs:146-227 | in every run each datagram leaving the socket of an association is the body of a packet its client sent, decrypted, to the address in front of it, in the order of the packets and at most one for each |
| `UdpAssociation.NoReplayForwarded` | src/relay/udprelay/server.rs:155-168 | in every run, acceptance and sending being separate steps that the tasks interleave as they like: two datagrams sent on from packets under one nonce, from whatever clients and in whatever order they leave, have more than N acceptances between theirs |
| `UdpAssociation.HonestPacketForwarded` | src/relay/udprelay/server.rs:146-227 | an honest client's packet under a nonce not reported when it is screened is sent on with its body to its address once the socket takes it, whatever the other tasks do before that, and stays sent |
| `UdpAssociation.HonestPacketScreened` | src/relay/udprelay/server.rs:155-175 | screening such a packet leaves its body and address waiting to be sent, under the next acceptance |
| `UdpAssociation.QueueNeverClosed` | src/relay/udprelay/server.rs:271-276 | the listener never finds the queue of an association closed |
| `UdpAssociation.OneAssociation` | src/relay/udprelay/server.rs:368-391 | a client has at most one association in use and never returns to an older one |
| `UdpAssociation.SticksUntilExpiry` | src/relay/udprelay/server.rs:368-391 | a packet goes to the association the map then holds for its client, and so does every later one until that entry expires, in every interleaving |
| `UdpAssociation.InvAlways` | src/relay/udprelay/server.rs:53-143 | ownership, order, task life, provenance and one acceptance for each datagram hold in every reachable state |
| `UdpAssociation.AnsweredKept` | src/relay/udprelay/server.rs:297-326 | every step keeps the answers on their way genuine and in order |
| `UdpAssociation.InOrderKept` | src/relay/udprelay/server.rs:368-391 | every step keeps relayed, queued and in-hand packets equal to the arrivals |
| `UdpAssociation.ForwardingKept` | src/relay/udprelay/server.rs:146-227 | every step keeps the datagrams sent and the one waiting in each association genuine, in the order of their packets, and no two of them from one acceptance |
| `UdpAssociation.OutSteps` | src/relay/udprelay/server.rs:302-326 | a step adds one answer at the end, drops some, or changes none |
| `Socks5.ReadWrite` | src/relay/socks5.rs:218-288 | writing then reading, before any trailing bytes, gives the carried address and consumes exactly what was written |
| `Socks5.WriteLayout` | src/relay/socks5.rs:393-428 | the bytes one by one: type 1, 3 or 4, the octets, the eight segments or the length and the name, and the port, every 16-bit value with its high byte first |
| `Socks5.ReadOutcome` | src/relay/socks5.rs:218-288 | when an address is accepted, and which error it is otherwise, for all bytes |
| `Socks5.EncodedIsValid` | src/relay/socks5.rs:270-280 | every text encoded in UTF-8 is accepted as a domain name |
| `Socks5.ValidIsEncoded` | src/relay/socks5.rs:270-280 | and whatever is accepted is the encoding of some text |
| `Socks5.RoundTripIff` | src/relay/socks5.rs:393-428 | the address is unchanged exactly when an IPv6 flow label and scope are zero |
| `Socks5.WriteRead` | src/relay/socks5.rs:218-288 | every accepted prefix is the encoding of what was read |
| `Socks5.PrefixFree` | src/relay/socks5.rs:393-428 | no encoding is a proper prefix of another |
| `Socks5.StopsAtAddress` | src/relay/socks5.rs:218-288 | exact reads stop at the end of the address whatever follows |
| `Socks5.Write` | src/relay/socks5.rs:431-437 | the encoding has the announced length |
| `Socks5.RequestRoundTrip` | src/relay/socks5.rs:466-515 | a request header round-trips before any trailing bytes |
| `Socks5.RequestLayout` | src/relay/socks5.rs:507-515 | version 5, command 1, 2 or 3, a zero byte, the address |
| `Socks5.RequestSpelling` | src/relay/socks5.rs:466-515 | an accepted request is spelled as written exactly when its reserved byte is zero |
| `Socks5.HandshakeRoundTripIff` | src/relay/socks5.rs:618-655 | a handshake survives exactly with at most 255 methods |
| `Socks5.HandshakeLayout` | src/relay/socks5.rs:651-655 | version 5, the number of methods modulo 256, the methods |
| `Socks5.PacketRoundTrip` | src/relay/udprelay/socks5_local.rs:50-82 | parsing undoes assembling |
| `Socks5.PacketLayout` | src/relay/udprelay/socks5_local.rs:73-82 | three zero bytes, the address, the payload |
| `Socks5.PacketSpelling` | src/relay/udprelay/socks5_local.rs:50-82 | an accepted packet is what assembling gives exactly when its reserved bytes are zero |
| `Socks5Reply.RoundTripIff` | src/relay/socks5.rs:548-589 | a reply header comes back unchanged exactly when its code is not a known one in disguise and an IPv6 flow label and scope are zero |
| `Socks5Reply.ReadWrite` | src/relay/socks5.rs:548-589 | writing then reading, before any trailing bytes: what survives of reply and address |
| `Socks5Reply.Layout` | src/relay/socks5.rs:584-589 | version 5, the code of the reply, a zero byte, the address |
| `Socks5Reply.Spelling` | src/relay/socks5.rs:548-572 | an accepted reply is spelled as written exactly when its reserved byte is zero |
| `HttpHop.Relay` | src/relay/tcprelay/http_local.rs:558-611 | the next hop reads back the decision and gets every header that is neither one of the nine hop-by-hop ones nor nominated, unchanged, and no other but possibly a new Connection, which says `keep-alive` or `close` |
| `HttpHop.ClearHopHeaders` | src/relay/tcprelay/http_local.rs:284-336 | exactly the nine names and the nominated ones are gone |
| `HttpHop.ClearedOnce` | src/relay/tcprelay/http_local.rs:284-336 | clearing is idempotent |
| `HttpHop.NamedMeans` | src/relay/tcprelay/http_local.rs:288-314 | a name is nominated by exactly the words of the readable values that are not "close", but "keep-alive" |
| `HttpHop.NominatedIff` | src/relay/tcprelay/http_local.rs:288-314 | without splitting and lower case: a header is nominated exactly by the values of Connection and Proxy-Connection that can be read, are not `close` in any case, and have a part between commas that says its name, in any case and among blanks; never `keep-alive` |
| `HttpHop.HopNames` | src/relay/tcprelay/http_local.rs:320-331 | the nine names, in lower case |
| `HttpHop.CheckKeepAlive` | src/relay/tcprelay/http_local.rs:232-282 | the loops compute the specified decision, Connection after Proxy-Connection |
| `HttpHop.LastVoteDecides` | src/relay/tcprelay/http_local.rs:245-279 | the last value that says anything decides, else the default |
| `HttpHop.VoteIff` | src/relay/tcprelay/http_local.rs:245-258 | what a value votes, in the same terms: to close if all of it is that word, to keep if it is not and some part says `keep-alive`, nothing if it cannot be read |
| `HttpHop.ConnectionDecides` | src/relay/tcprelay/http_local.rs:239-279 | the last vote of Connection decides; without one that of Proxy-Connection, if it is checked |
| `HttpHop.VersionDecides` | src/relay/tcprelay/http_local.rs:233-237 | without the two headers HTTP/1.1 keeps the connection and HTTP/1.0 does not |
| `HttpHop.DefaultIff` | src/relay/tcprelay/http_local.rs:245-279 | a list of values decides for the default exactly when its last vote, if any, does |
| `HttpHop.DecideConcat` | src/relay/tcprelay/http_local.rs:245-279 | considering Proxy-Connection and then Connection is considering one list |
| `HttpHop.SetConnKeepAlive` | src/relay/tcprelay/http_local.rs:338-354 | only a decision against the version's default is written out |
| `HttpHop.DecisionCarriedIff` | src/relay/tcprelay/http_local.rs:338-354 | the decision is read back exactly when it is not the default of the version, or the last value of Proxy-Connection (if checked) and Connection that says anything agrees with it |
| `HttpHop.DecisionLost` | src/relay/tcprelay/http_local.rs:338-354 | a remaining "close" outlives the decision to keep an HTTP/1.1 connection |
| `HttpHop.DecisionSurvives` | src/relay/tcprelay/http_local.rs:558-611 | after clearing, the decision is always read back |
| `HttpHop.JoinSplit` | src/relay/tcprelay/http_local.rs:249-255 | splitting at commas loses nothing and leaves none |
| `HttpHop.SplitJoin` | src/relay/tcprelay/http_local.rs:249-255 | and it is the only such cut |
| `HttpHop.TrimLeft` | src/relay/tcprelay/http_local.rs:250-250 | leading blanks and nothing else are cut off |
| `HttpHop.TrimRight` | src/relay/tcprelay/http_local.rs:250-250 | trailing blanks and nothing else are cut off |
| `HttpHop.TrimIs` | src/relay/tcprelay/http_local.rs:250-250 | trimming cuts spaces and tabs off both ends and nothing else |
| `HttpHop.LowerIgnoresCase` | src/relay/tcprelay/http_local.rs:246-246 | comparing in lower case is comparing letter by letter in either case |
| `HttpHop.WordIff` | src/relay/tcprelay/http_local.rs:249-255 | a word of a list is exactly what the part between two commas says |
| `HttpHop.HeaderMap.RemoveAll` | src/relay/tcprelay/http_local.rs:316-335 | removing until nothing is found removes exactly the names, whatever their case |

## Left out

- Cipher, MD5, HKDF and libsodium internals: parameters with laws; a single call that runs over the end of the block counter is the library's.
- Bloom hashing and error rates: a filter is a set with arbitrary false positives and no false negatives until it is cleared.
- The capacity of the replay memory is a parameter of at least one; the original sets it from two constants, src/context.rs:62-81.
- Buffer capacities and unsafe slices: output buffers have exactly the length their contract asks for.
- AeadReader.DecryptedReader.PollReadDecrypted: nothing is claimed after the first failed open, where the backends differ on whether the nonce moves on.
- AeadWriter.EncryptedWriter.PollWriteEncrypted: a caller retries an unfinished write with the same data, as the callers do; other retries are not described.
- StreamIo.Run: the receiver's salt check against the replay memory is in `CryptoStream` and not repeated there.
- Tunnel.Run: one direction of a connection; the other direction is the same pair of objects the other way round.
- SodiumStream.SodiumStreamCipher.Process: the byte counter wraps around as in a release build; a build with overflow checks stops there instead.
- Statistics.ScoreBound: f64 is modelled over the reals, and overflow of the u64 sum of latencies is not described.
- Startup.ReturnsInformed: with one server or none no task is spawned; shutdown of the spawned loops is not described, since it only ends runs early.
- UdpAssociation.AnswersAreGenuine: the listener, the shared map and the spawned loops are modelled on values as atomic steps, not as objects; socket errors that are logged and ignored are not described, and whether an accepted packet passes the ACL, the DNS lookup and the socket is a parameter of the later step that sends it on.
- HttpHop.HeaderMap.RemoveAll: a name that is no valid header name is never a key of the original's map; the model does not check names.
- HttpHop.CheckKeepAlive: lists such as "close, x" are treated as the code treats them, not as section 6.3 of RFC 7230 does; versions other than HTTP/1.0 and 1.1 abort the original.
- Socks5.ReadWrite: domain names longer than 255 bytes stop the original with a failed assertion.
- LRU expiry order, channels and barriers: expiry may remove any entry at any time, channels are FIFO, a barrier opens when all have arrived.
- Access control, configuration, the manager, DNS, plugins, redirection, platform code and the command-line programs.
- The two-byte method selection reply of the SOCKS5 handshake, and the parsing of URIs and authorities into addresses in the HTTP proxy.
