# A verified model of a cable peer

Dafny model of a peer of the cable protocol: bytes to frames to messages to protocol steps to indexed storage.

| module | models |
|---|---|
| `Wire`, `Utf8`, `Cursor` | bytes, identifiers, errors, UTF-8, and the reading and writing steps shared by the codecs |
| `Varint`, `Desert` | variable-length integers and the generic codecs for tuples, arrays and vectors |
| `Messages`, `Posts`, `Layout` | the codecs of messages and posts, signing and verifying, and their bytes field by field |
| `Framing`, `Session` | the decoder of length-prefixed records, and a connection end to end |
| `Noise` | splitting messages into encrypted segments after the handshake |
| `History`, `Store`, `Queries`, `MemoryStore` | the store: what its indexes mean, its updates as values, its queries, and the class that updates in place |
| `Manager`, `CableManager` | the peer: one step as a value, and the class that updates in place |
| `Orders`, `Effects`, `News` | what iterating a whole map amounts to, what each step does and sends in full, and what the holders of live requests are told |
| `Requests`, `Peers`, `Network`, `Sync`, `Rounds` | whole runs: request identifiers, the store of a peer, forwarding across a network, one round of synchronisation as a step sequence and between two objects over a connection |
| `Steps`, `Admission`, `Alone`, `Interleavings`, `Clashes`, `Writes`, `Answers` | concurrent tasks on the store, one critical section at a time |
| `Handlers` | concurrent handlers on the tables of requests, one critical section at a time |

Everything the source computes step by step is a method proved against a function, and the results are about
those functions: the hardest are `Session.Transfer`, `Rounds.Round`, `Sync.RoundConverges`, `Interleavings.DeletedIsGone`,
`Queries.PostHashesRefineHistory`, `News.PublishTells`, `Requests.DeadForever`, `Network.BoundedTravel`, `Noise.SessionRoundTrip` and
`Desert.RoundTrip`.

How the source is read:

- A slice out of range and an arithmetic overflow are the result `Err(Panic)`, as in a build with overflow checks;
  a loop that would never end is `Err(NonTermination)`.
- `usize` is 64 bits wide. Text is a sequence of bytes, checked for UTF-8 wherever the source builds a `String`.
- The digest, the signature scheme and the cipher are functions passed in. What is asked of them is a hypothesis:
  `Posts.Lawful` (a signature made with a secret key verifies with its public key) and `Noise.Lawful` (opening
  undoes sealing, a tag is 16 bytes). `Sync.Honest` asks that no two posts in play share a digest, and
  `Interleavings.OwnHash` that among the posts in play a deleted hash is not also the digest of someone else's.
- The order in which a hash map is iterated is an argument of the step (`Manager.Choices`); every result holds for
  every list given, and `Orders` says what a list that enumerates its map amounts to. The reads a connection
  delivers are an argument too (`Framing.Reader`).
- In `Manager` a step runs to completion. In `Admission` and `Handlers` a step is one critical section, a task
  holding the locks that the source holds across an `await`.
- `process_and_send_outbound_requests` asks for a write lock on the map it is iterating under a read lock; the
  model removes from the map while iterating over a snapshot.

Results where the code does less than one might expect, each with its condition:

- varints of 2^56 and more do not survive decoding (`Varint.ExactLaw`);
- the message prefix is one short in a window below each power of 128 (`Messages.PrefixExact`), and there a message
  is not one frame (`Session.FrameExactly`);
- a first read that ends inside a prefix is misread (`Framing.FirstRecord`);
- a hash response of more than 1562 hashes does not fit the receiver's buffer (`Rounds.HashesSendable`);
- messages whose encrypted length reaches 2^32 do not survive (`Noise.MessageRoundTrip`);
- an inverted time range panics for a channel that ever had a post (`Queries.PostHashesFail`);
- a forwarded cancel with a hop left is sent twice to a new peer that its request was forwarded to
  (`Effects.CancelProcessed`);
- a cancel with ttl 0 panics and cancels nothing (`Requests.CancelKillsExactly`);
- `count_from_bytes` of a vector can exceed what `from_bytes` consumes (`Desert.VecAgreement`);
- a deletion lasts exactly if every later writing of the hash is followed by its removal or overwriting
  (`Writes.GoneExactly`); it does if writing and removing do not overlap and the post is not published again locally
  (`Interleavings.DeletedIsGone`), and may not otherwise (`Clashes`);
- the newest topic or name is lost exactly if the last one of its time is deleted (`Queries.TopicIffLastUndeleted`);
- an answer handled before its hashes are marked is thrown away (`Answers.EarlyAnswer`; after that it is not,
  `Answers.AnswerAdmitted`), and a cancel can be undone by a copy of the request in flight
  (`Handlers.CancelOvertaken`; without one it cannot, `Handlers.QuietForever`).

Where the code and its documentation disagree the code is followed: a topic may have 521 code points where the text
says 512 (cable/src/validation.rs:38-50), and the limit of a channel list request is an end index, not a count
(cable_core/src/manager.rs:989-996).

`dafny verify dfyconfig.toml` checks the project.

## Model

| member | source | states |
|---|---|---|
| Varint.ExactLaw | desert/src/varint.rs:4-46 | for every u64 and any tail, the bytes written number `length(v)`; decoding them gives `min(8, length(v))` bytes and `v mod 2^56`, so it is the identity exactly below 2^56 |
| Varint.EncodingLength | desert/src/varint.rs:25-46 | the encoding loop writes exactly as many bytes as the leading-zeros formula says |
| Varint.LeadingZerosMsb | desert/src/varint.rs:42-45 | 64 minus the leading zeros of a word is the position of its top bit, for words of any width |
| Varint.LengthRange | desert/src/varint.rs:42-46 | a length is at most k exactly for values below 128^k |
| Varint.DecodeEncoding | desert/src/varint.rs:4-22 | decoding limited to n bytes gives the value modulo 128^n, whatever follows the encoding |
| Varint.DecodeStable | desert/src/varint.rs:4-22 | decoding depends on nothing past the bytes it consumes |
| Varint.EncodingDigits | desert/src/varint.rs:25-39 | the bytes written are the digits of the value to the base 128, least first, as few as possible, each but the last marked with 128 |
| Varint.CutPrefixMisread | desert/src/varint.rs:4-22 | an encoding cut short and followed by a zero byte always decodes, to the value modulo 128^k, which is smaller than the value |
| Varint.Encode | desert/src/varint.rs:25-39 | the loop succeeds exactly when the buffer is long enough, writes the encoding and leaves every other byte alone |
| Varint.DecodeLoop | desert/src/varint.rs:4-22 | the loop with value and multiplier computes the recursive decoding, without overflow of 64 bits |
| Desert.RoundTrip | desert/src/lib.rs:385-499 | for types nested to any depth from tuples, arrays and vectors over lawful codecs (vectors of items that take room, vector sizes below 2^56): decoding undoes encoding before any tail, and `count_bytes`, `count_from_bytes` and the size `from_bytes` returns are all the encoded length |
| Desert.CountExact | desert/src/lib.rs:594-613 | `count_bytes` is the number of bytes written, and positive wherever a vector needs it to be |
| Desert.TupleInOrder | desert/src/lib.rs:387-394 | the first part of a pair is written in front of the second |
| Desert.VecInOrder | desert/src/lib.rs:1047-1118 | a vector is written as a minimal varint of the number of bytes behind it, and its items |
| Desert.ManyRoundTrip | desert/src/lib.rs:747-762 | the array loops decode and count exactly the items encoded, from any offset |
| Desert.UntilRoundTrip | desert/src/lib.rs:1047-1062 | the vector loops stop exactly at the declared end of the items encoded, from any offset |
| Desert.TupleAgrees | desert/src/lib.rs:387-394 | on any bytes at all that decode, `count_from_bytes` of a tuple is the size `from_bytes` returns if that holds of its parts |
| Desert.ArrayAgrees | desert/src/lib.rs:594-605 | the same for arrays of any length |
| Desert.VecAgreement | desert/src/lib.rs:1047-1118 | for vectors of fixed-size items, built-in types and tuples and arrays of them, the two agree exactly when the declared length is a multiple of the item size; otherwise the count is larger |
| Desert.VecAgreesExactly | desert/src/lib.rs:1047-1118 | for vectors of any items whose counts agree, fixed in size or not: `count_from_bytes` is where the items end, `from_bytes` where they were declared to, and the two agree exactly if the last item does not overshoot |
| Desert.UntilAgrees | desert/src/lib.rs:1098-1110 | the counting loop of a vector reaches the offset that the decoding loop reaches |
| Desert.TupleFixed | desert/src/lib.rs:387-394 | a pair of fixed-size types has a fixed size, their sum |
| Desert.ArrayFixed | desert/src/lib.rs:594-605 | an array of a fixed-size type has a fixed size, the product |
| Desert.VecOfBytesAgrees | desert/src/lib.rs:1047-1118 | a vector of one-byte items agrees on any bytes |
| Desert.VecOvershoot | desert/src/lib.rs:1047-1118 | the bytes 1, 0, 0 as a vector of `u16`: `from_bytes` consumes 2, `count_from_bytes` reports 3 |
| Desert.UnsignedLawful | desert/src/lib.rs:182-285 | the unsigned built-in types of any width are lawful, of fixed size, and count as they decode |
| Desert.BigEndianRoundTrip | desert/src/lib.rs:218-262 | big-endian bytes of a number in range give the number back |
| Desert.BigEndianAt | desert/src/lib.rs:218-262 | byte i from the end is the digit of 256^i: the one that counts most comes first |
| Desert.ItemsInOrder | desert/src/lib.rs:594-613 | the items of an array or vector are written one behind the other, in their order |
| Desert.FromBytes | desert/src/lib.rs:1047-1062 | the decoding loops compute the recursive decoding, error cases included |
| Desert.ReadMany | desert/src/lib.rs:747-762 | the loop over the items of an array |
| Desert.ReadUntil | desert/src/lib.rs:1051-1061 | the loop over the items of a vector; an item of no size is reported as the endless loop it is |
| Desert.CountFromBytes | desert/src/lib.rs:1098-1110 | the counting loops over tuples, arrays and vectors, error cases included |
| Desert.CountBytes | desert/src/lib.rs:1111-1118 | the summing loops give the size of any typed value |
| Desert.WriteBytes | desert/src/lib.rs:964-983 | writing fails exactly when the destination is shorter than `count_bytes`, and then writes nothing; otherwise it puts the encoding at the front and nothing else |
| Desert.ToBytes | desert/src/lib.rs:958-962 | the buffer allocated by `count_bytes` is filled exactly |
| Cursor.PutChunks | cable/src/message.rs:625-661 | the loop over length-prefixed items ends with a zero length and writes exactly the encoded list |
| Cursor.ReadHashLoop | cable/src/message.rs:725-735 | the loop over hashes reads the same list as its recursive definition or fails in the same way |
| Cursor.ReadChunkLoop | cable/src/message.rs:742-771 | the loop that runs until a zero length reads the same items as its recursive definition or fails in the same way |
| Utf8.ValidExactly | cable/src/post.rs:533-540 | bytes are accepted as text exactly if they are the UTF-8 encoding of a list of Unicode scalar values |
| Utf8.CharsExactly | cable/src/validation.rs:6-20 | and the number of characters counted is the length of that list |
| Messages.RoundTrip | cable/src/message.rs:531-944 | any well-formed message of total size below 2^56 decodes back from its encoding with any tail, with `count_bytes` as the size |
| Messages.RoundTripExactly | cable/src/message.rs:531-944 | a recognised message survives the round trip if and only if it is well formed: lists without empty items, text valid UTF-8, varint fields below 2^56, type field as the body says |
| Messages.DecodedWellFormed | cable/src/message.rs:677-944 | whatever decodes to a recognised message is well formed |
| Messages.PrefixExact | cable/src/message.rs:505-543 | the prefix written is the number of bytes after it, except that it is one less when the body size is within k below 128^k; the bytes written are always `count_bytes` many |
| Messages.PrefixOfSize | cable/src/message.rs:505-541 | the arithmetic of the prefix: total less the length of the total, against the body size, for every size |
| Messages.CountFromEncoding | cable/src/message.rs:511-519 | `count_from_bytes` of an encoding is the whole message, or one byte short in the window |
| Messages.RequestAt | cable/src/message.rs:772-908 | every request body decodes where it is encoded, from any offset of any buffer |
| Messages.BodyAt | cable/src/message.rs:716-942 | every body decodes where it is encoded, from any offset of any buffer |
| Messages.MessageSizeExact | cable/src/message.rs:447-503 | the sizes added up per body type are the bytes written |
| Messages.WriteBytes | cable/src/message.rs:531-671 | writing succeeds exactly for recognised bodies and long enough buffers, and puts the encoding in front, leaving the rest alone |
| Messages.ToBytes | cable/src/message.rs:524-529 | the buffer of `count_bytes` is always long enough and filled exactly; only an unrecognised body is refused |
| Messages.ReadRequest | cable/src/message.rs:772-908 | the step-by-step reading of a request is the decoding, error cases included |
| Messages.FromBytes | cable/src/message.rs:677-944 | the step-by-step reading is the decoding, error cases included |
| Layout.MessageLayout | cable/src/message.rs:531-671 | every message is written as the number of bytes behind it (one less in the window), then type 0 to 7, circuit, request id and the fields of its body, each number a minimal varint |
| Layout.SpellingUnique | cable/src/message.rs:531-671 | a list of fields determines the bytes |
| Layout.MessageTypes | cable/src/message.rs:716-942 | a message decodes as unrecognised exactly if its type exceeds 7, and otherwise with the body of that type |
| Posts.RoundTrip | cable/src/post.rs:362-684 | every valid post decodes back from its encoding with any tail, with `count_bytes` as the size |
| Posts.RoundTripExactly | cable/src/post.rs:362-684 | a recognised post survives the round trip if and only if it is valid (validation limits, UTF-8, varint fields below 2^56) |
| Posts.PrefixFree | cable/src/post.rs:362-469 | no encoding of a valid post is a proper prefix of another, hence encoding is injective |
| Posts.DecodedWellFormed | cable/src/post.rs:475-684 | whatever decodes to a recognised post is valid |
| Posts.CountExact | cable/src/post.rs:689-729 | `count_bytes` is the number of bytes written |
| Posts.SignedPart | cable/src/post.rs:300-334 | key, signature and signed bytes stand at 0, 32 and 96, and the signed bytes do not depend on the signature |
| Posts.VerifyMeaning | cable/src/post.rs:320-334 | `verify` of an encoding checks the post's own signature over the signed bytes with the post's own key |
| Posts.SignThenVerify | cable/src/post.rs:300-334 | `verify` accepts the encoding of any post after `sign` with the matching secret key, and signing keeps validity |
| Posts.IsSigned | cable/src/post.rs:276-284 | the loop finds a non-zero byte exactly when the signature is not all zero |
| Posts.WriteBytes | cable/src/post.rs:362-469 | writing succeeds exactly for recognised posts and long enough buffers, and puts the encoding in front, leaving the rest alone |
| Posts.ToBytes | cable/src/post.rs:354-360 | the buffer of `count_bytes` is always long enough and filled exactly |
| Posts.ReadInfoLoop | cable/src/post.rs:581-622 | the loop over key and value pairs reads the same list as its recursive definition or fails in the same way |
| Posts.FromBytes | cable/src/post.rs:475-684 | the step-by-step reading is the decoding, error cases included |
| Layout.PostLayout | cable/src/post.rs:362-469 | every post is written as key, signature, links, type 0 to 5, timestamp and the fields of its body, with a zero length behind the last pair of an info post |
| Layout.PostTypes | cable/src/post.rs:515-684 | a post decodes as unrecognised exactly if its type exceeds 5, and otherwise with the body of that type |
| Layout.LimitsExact | cable/src/validation.rs:6-51 | for the encoding of any list of code points: a channel has 1 to 64, a topic up to 521, a name (cable/src/lib.rs:91) 1 to 32, a text up to 4096 bytes |
| Layout.InfoExact | cable/src/post.rs:581-622 | a pair of texts is accepted exactly if its key is not empty and, for the key `name`, its value is a valid name |
| Framing.DeframeSound | length_prefixed_stream/src/lib.rs:81-168 | the reference splitting: records and remainder concatenate to the stream, every record is complete, no complete record remains in front |
| Framing.DeframeConcat | length_prefixed_stream/src/lib.rs:81-168 | splitting a concatenation of complete records gives exactly those records |
| Framing.DeframeAppend | length_prefixed_stream/src/lib.rs:81-168 | splitting in two pieces gives the same as splitting at once |
| Framing.StaleBytesIgnored | length_prefixed_stream/src/lib.rs:135-150 | bytes past the write offset never make a record complete, nor keep a complete one from being found |
| Framing.PrefixOverZeros | length_prefixed_stream/src/lib.rs:87-110 | part of a canonical prefix over zeros is read right exactly when it is all of it; otherwise as one byte more that announces less |
| Framing.FirstRecord | length_prefixed_stream/src/lib.rs:87-110 | a fresh decoder hands out the first record if and only if its first read holds the whole length prefix |
| Framing.CompleteRecords | length_prefixed_stream/src/lib.rs:135-163 | the queueing loop takes exactly the complete records up to the write offset |
| Framing.Decoder.ReadPrefix | length_prefixed_stream/src/lib.rs:87-110 | the first loop: no byte lost, the prefix found is that of the bytes received, or the error says why not |
| Framing.Decoder.Await | length_prefixed_stream/src/lib.rs:111-128 | the second loop: no byte lost, and it fails exactly when the announced record is not to come or does not fit |
| Framing.Decoder.TakeRecord | length_prefixed_stream/src/lib.rs:129-166 | the front record is handed out, the complete ones behind it are queued and the rest is moved to the front of the buffer |
| Framing.Decoder.Fetch | length_prefixed_stream/src/lib.rs:86-167 | the same with an empty queue |
| Framing.Decoder.Next | length_prefixed_stream/src/lib.rs:81-167 | conservation at every return when the front prefix is complete: what was undelivered before is the record delivered followed by what is undelivered now; and whenever the buffer, stale bytes included, shows a prefix after the read, right or not, exactly which bytes that prefix makes `next` hand out, and when it fails instead |
| Framing.NextRecord | length_prefixed_stream/src/lib.rs:81-167 | each call returns the next record of the reference splitting; after the last, a clean end or, for a stream cut inside a prefix or a body, an error |
| Framing.DecodeAll | length_prefixed_stream/src/lib.rs:81-167 | the records delivered do not depend on how the reads were cut: they are those of the reference splitting, and the end is clean exactly when nothing remains, be it part of a prefix or of a body |
| Session.FrameExactly | cable/src/message.rs:531-543 | an encoded message is one frame if and only if its body size is outside the prefix window |
| Session.StreamOfMessages | length_prefixed_stream/src/lib.rs:81-168 | a stream of encoded messages splits into exactly their encodings |
| Session.Listen | cable_core/src/manager.rs:309-321 | deframing and decoding a connection returns the messages sent, in order, and a clean end |
| Session.Transfer | cable_core/src/manager.rs:309-321 | end to end: any list of well-formed messages outside the window and within `max_size`, encoded, concatenated and cut into any reads that leave each front prefix complete, arrives as that list with a clean end |
| Noise.SessionRoundTrip | handshake/src/post_handshake.rs:31-210 | any sequence of non-empty messages with encrypted length below 2^32, then the end-of-stream marker: the reader recovers the sequence and ends in step with the writer's nonce |
| Noise.MessageRoundTrip | handshake/src/post_handshake.rs:72-202 | one message is recovered, with the counters in step, if and only if its encrypted length is below 2^32 |
| Noise.OpenSealed | handshake/src/post_handshake.rs:31-69 | splitting ciphertext at 65535 finds the segments that splitting plaintext at 65519 made |
| Noise.SealedLength | handshake/src/post_handshake.rs:143-181 | ciphertext is the plaintext plus 16 bytes per segment |
| Noise.SegmentsCeil | handshake/src/post_handshake.rs:143-181 | the number of segments is the length divided by 65519, rounded up |
| Noise.SegmentAt | handshake/src/post_handshake.rs:143-181 | the i-th 65535 bytes of the ciphertext are the i-th 65519 bytes of the message sealed under the i-th counter from the start |
| Noise.LengthTruncated | handshake/src/post_handshake.rs:190-202 | the length field holds the length modulo 2^32 |
| Layout.LengthBytes | handshake/src/post_handshake.rs:72-93 | the length in front of a Noise message has the byte that counts least first |
| Noise.EmptyIsMarker | handshake/src/post_handshake.rs:190-210 | writing an empty message writes the end-of-stream marker |
| Noise.MarkerEnds | handshake/src/post_handshake.rs:72-93 | the marker is read as the empty message and uses no nonce |
| Noise.Transport.WriteMessage | handshake/src/post_handshake.rs:143-181 | the segment loop writes the specified ciphertext and advances the nonce by the number of segments; it fails exactly when nonces run out |
| Noise.Transport.ReadMessage | handshake/src/post_handshake.rs:31-69 | the fragment loop recovers the specified plaintext or fails as specified |
| Noise.Transport.WriteMessageToStream | handshake/src/post_handshake.rs:190-202 | length field and ciphertext are appended to the stream |
| Noise.Transport.ReadMessageFromStream | handshake/src/post_handshake.rs:72-93 | one framed message is taken from the stream, or the error is as specified |
| History.StableSortMeaning | cable_core/src/store.rs:764-790 | the reference order: sorted by timestamp, and entries of equal timestamp in order of insertion |
| History.SortedUnique | cable_core/src/store.rs:764-790 | that order is the only one with those two properties |
| History.SlotIsLog | cable_core/src/store.rs:476-531 | with distinct timestamps, what a timestamp holds is the undeleted entry of that timestamp |
| History.SlotMeaning | cable_core/src/store.rs:490-531 | a slot holds an entry exactly if that post was the last one put there and has not been dropped since |
| History.WithoutInOrder | cable_core/src/store.rs:887-912 | what a deletion leaves keeps its order and every repetition |
| Store.RunAgrees | cable_core/src/store.rs:792-948 | after any run of inserts, every index is what the plain history of puts and drops says it is |
| Store.InsertAgrees | cable_core/src/store.rs:792-885 | inserting a post of any type keeps every index in agreement with the history |
| Store.AgreePut | cable_core/src/store.rs:792-885 | all eight indexes follow a stored post |
| Store.AgreeDrop | cable_core/src/store.rs:887-912 | all eight indexes follow a deletion |
| Store.AgreeDeleteListed | cable_core/src/store.rs:832-855 | the loop of a delete post drops the listed posts by the same author and no others |
| Store.AuthorSurvives | cable_core/src/store.rs:837-845 | the author read back from a stored payload is the post's author, whatever else its bytes decode to |
| Queries.PostHashesRefineHistory | cable_core/src/store.rs:764-790 | after any run, the range query lists the stable sort by timestamp of exactly the text and topic posts of the channel that are undeleted and in [start, end), 0 meaning unbounded |
| Queries.PostHashesFail | cable_core/src/store.rs:764-790 | the query panics if and only if both bounds are non-zero, start exceeds end, and the channel ever had a post |
| Queries.CutRefinesHistory | cable_core/src/manager.rs:846-864 | after any run, what a request with a limit is answered with is the front of that list: all of it for limit 0, else min(limit, 4096, n) hashes |
| Queries.LatestHashesRefineHistory | cable_core/src/store.rs:587-604 | the latest hashes are exactly those of the undeleted text and topic posts at the greatest timestamp ever inserted in the channel, and none if there never was one |
| Queries.TopicRefinesHistory | cable_core/src/store.rs:476-531 | with distinct timestamps, the topic is that of the undeleted topic post with the greatest timestamp |
| Queries.NameRefinesHistory | cable_core/src/store.rs:606-660 | with distinct timestamps, the name is that of the undeleted info post with the greatest timestamp |
| Queries.TopicExactly | cable_core/src/store.rs:476-531 | after any run, distinct timestamps or not: the topic is that of the greatest timestamp whose last topic post is undeleted, and there is none if no timestamp has one |
| Queries.NameExactly | cable_core/src/store.rs:606-660 | the same for the name of an author |
| Queries.TopicIffLastUndeleted | cable_core/src/store.rs:476-531 | after any run, with T the time of the newest undeleted topic post: the query returns an undeleted topic post of time T if and only if the last one put at T is undeleted; otherwise it returns an older one or none |
| Queries.NameIffLastUndeleted | cable_core/src/store.rs:606-660 | the same for names |
| Queries.SameTimeForgets | cable_core/src/store.rs:476-531 | a run of three posts, for any two topic posts of one time and a delete post listing the later: the earlier is undeleted and the channel has no topic |
| Queries.MembershipRefinesHistory | cable_core/src/store.rs:352-474 | a key is a member iff its last inserted join or leave was a join, an ex-member iff it was a leave, never both; the membership map holds that post's hash unless deleted since |
| Queries.IntegrityOverRuns | cable_core/src/store.rs:792-912 | after any run every payload's digest is its key, and every hash in the posts, topic, name, info and membership indexes has a payload |
| Queries.PayloadLossExplained | cable_core/src/store.rs:832-855 | an insert loses a payload only if it inserts a delete post that lists it and has the same author |
| Queries.Want | cable_core/src/store.rs:990-999 | a hash is wanted exactly when it is listed and has no payload |
| Queries.GetPayloads | cable_core/src/store.rs:957-965 | the payloads served are exactly those stored under the requested hashes |
| Queries.ServedInOrder | cable_core/src/store.rs:957-965 | and they come in the order of the request, once for each time a hash is listed |
| Queries.WantedInOrder | cable_core/src/store.rs:990-999 | wanted hashes keep the order and the repetitions of the list |
| Queries.ChannelsExactly | cable_core/src/store.rs:792-885 | after any run, the known channels are those of the text, topic, join and leave posts inserted, deleted or not |
| Queries.DeleteHashesExactly | cable_core/src/store.rs:832-851 | after any run, the record of an author's delete posts holds the hash of each as often as it dropped a post, in order |
| MemoryStore.MemoryStore.constructor | cable_core/src/store.rs:292-316 | a new store is empty |
| MemoryStore.MemoryStore.InsertChannelMember | cable_core/src/store.rs:352-365 | the key is appended, duplicates kept |
| MemoryStore.MemoryStore.RemoveChannelMember | cable_core/src/store.rs:375-384 | every occurrence of the key goes |
| MemoryStore.MemoryStore.DeletePost | cable_core/src/store.rs:904-912 | one hash leaves all six indexes that hold it and nothing else changes |
| MemoryStore.MemoryStore.InsertNames | cable_core/src/store.rs:859-870 | the loop over an info post's pairs leaves the last name under the post's time |
| MemoryStore.MemoryStore.DeleteListed | cable_core/src/store.rs:832-851 | the loop over a delete post's hashes, with its early return on an undecodable payload |
| MemoryStore.MemoryStore.InsertChannelPost | cable_core/src/store.rs:798-831 | the in-place insertion of a text or topic post |
| MemoryStore.MemoryStore.InsertJoin | cable_core/src/store.rs:805-813 | the in-place insertion of a join |
| MemoryStore.MemoryStore.InsertLeave | cable_core/src/store.rs:814-822 | the in-place insertion of a leave |
| MemoryStore.MemoryStore.InsertInfo | cable_core/src/store.rs:856-873 | the in-place insertion of an info post |
| MemoryStore.MemoryStore.InsertPost | cable_core/src/store.rs:792-885 | the in-place insertion is the specified one for every post type, with the hash of the post's encoding |
| CableManager.CableManager.HandleMessage | cable_core/src/manager.rs:779-1106 | `handle` in place: new collections, messages sent and error are those of the state machine's step |
| CableManager.CableManager.OnPostRequest | cable_core/src/manager.rs:803-819 | a post request is forwarded while its ttl lasts and answered with the payloads known |
| CableManager.CableManager.OnCancel | cable_core/src/manager.rs:820-833 | a cancel removes the live and outbound request; with ttl 0 it panics |
| CableManager.CableManager.OnTimeRange | cable_core/src/manager.rs:834-896 | forwarding, the first hashes of the range and the live request of a time range request, as `Effects.TimeRangeEffect` spells them out |
| CableManager.CableManager.OnChannelState | cable_core/src/manager.rs:897-971 | the three cases of the `future` field; if the order given is one of the membership map, the hashes are exactly everyone's latest join or leave and the topic |
| CableManager.CableManager.OnChannelList | cable_core/src/manager.rs:972-1003 | the drained stretch of the channels in the order given, with its panic on an inverted range; without skip and limit, every known channel once |
| CableManager.CableManager.OnHashes | cable_core/src/manager.rs:1012-1038 | wanted hashes are requested under a new identifier and marked, one by one |
| CableManager.CableManager.OnPosts | cable_core/src/manager.rs:1041-1085 | the loop over a post response admits exactly the posts the specification admits and stops at the same errors |
| CableManager.CableManager.TakeLimited | cable_core/src/manager.rs:846-864 | the loop that breaks at the limit returns the first min(limit, 4096) hashes, all of them for limit 0 |
| CableManager.CableManager.IsLiveRequest | cable_core/src/manager.rs:359-371 | the search finds a request id exactly when it is live for the peer |
| CableManager.CableManager.RemoveLiveRequest | cable_core/src/manager.rs:374-385 | every live request of that id goes, the others stay in order |
| CableManager.CableManager.AnswerLive | cable_core/src/manager.rs:627-748 | the nested loops send the hashes of each live request in the order given, up to the first error; without one, if the order is that of the live map, every live request of every peer is answered; if the members come in an order of theirs too, every connected holder is told what its request asks for and nothing else is sent |
| CableManager.CableManager.CollectState | cable_core/src/manager.rs:637-705 | membership, topic, delete and name hashes are collected in the specified order, everyone's latest join or leave among them |
| CableManager.CableManager.PublishPost | cable_core/src/manager.rs:587-618 | the post is stored; after a post to a channel, every connected holder of a live request for it is told what the request asks for, of the new store, after an info or delete post the holders for every channel its author is a member of, and nothing else is sent |
| CableManager.CableManager.PostDelete | cable_core/src/manager.rs:502-522 | the listed hashes, and no others, are barred before the delete post is published |
| CableManager.CableManager.Open | cable_core/src/manager.rs:193-228 | two local requests are recorded under two different new identifiers, every other outbound request stays, and exactly the targets are sent both |
| CableManager.CableManager.Close | cable_core/src/manager.rs:232-265 | no local time range request of the channel stays outbound, and every target is sent a cancel for each, if the order given is one of the outbound map |
| CableManager.CableManager.FindMatching | cable_core/src/manager.rs:238-256 | the loop that collects the local time range requests of the channel, in the order given |
| CableManager.CableManager.CancelEach | cable_core/src/manager.rs:258-263 | the loop that cancels and forgets each of them under a new identifier |
| CableManager.CableManager.ProcessRequest | cable_core/src/manager.rs:403-457 | one outbound request: a remote cancel follows its request, an exhausted one is dropped, the rest are sent and recorded |
| CableManager.CableManager.ProcessRequests | cable_core/src/manager.rs:393-461 | the loop over a snapshot of the outbound requests, in the order given |
| CableManager.CableManager.Accept | cable_core/src/manager.rs:270-286 | a new peer gets the next identifier and, if the order given is one of the outbound map, every outbound request that is due |
| Orders.BroadcastReaches | cable_core/src/manager.rs:751-757 | a broadcast reaches each target and nobody else |
| Orders.OpenReaches | cable_core/src/manager.rs:193-228 | opening a channel sends both requests to every connected peer |
| Orders.CloseCancelsAll | cable_core/src/manager.rs:232-265 | over a whole outbound map: closing forgets exactly the local time range requests of the channel, and every target is sent a cancel for each |
| Orders.ConnectSendsAll | cable_core/src/manager.rs:393-461 | over a whole outbound map: a new peer is sent every request that is due, and the exhausted ones are forgotten |
| Orders.LiveAllAnswered | cable_core/src/manager.rs:627-748 | over a whole live map: every live request is answered, if no query fails; what the answers are is what `News.PublishTells` says |
| Orders.MemberChannelsAnswered | cable_core/src/manager.rs:600-615 | over all channels: after a post without a channel, the live requests of every channel the author is a member of are answered |
| Orders.StateAllExact | cable_core/src/manager.rs:906-922 | over a whole membership map: the state of a channel is exactly everyone's latest join or leave and the topic |
| Orders.ChannelListExact | cable_core/src/manager.rs:972-1003 | over all channels: which stretch is listed, channel by channel, when it panics, and that no skip and no limit list every channel once |
| News.PublishTells | cable_core/src/manager.rs:587-748 | after a post to channel c: every connected peer with a live time range request for c is sent a hash response under its id that lists the first hashes of its range in the new store, if there are any; every one with a live state request exactly the moves, the topic, the members' delete posts and the newest names of members and ex-members; nobody is sent anything else |
| News.PublishTellsMembers | cable_core/src/manager.rs:600-748 | the same after an info or delete post, for every channel its author is a member of and no other |
| News.NewPostTold | cable_core/src/manager.rs:709-741 | the post just published is among those hashes if it is in the range and the limit is not exceeded |
| News.StateNewsExact | cable_core/src/manager.rs:637-705 | the state collected is exactly those hashes, in whatever order the members are iterated |
| News.OnlyNewsSent | cable_core/src/manager.rs:627-748 | every message sent answers a live request of a connected peer for that channel, even when a query fails on the way |
| Effects.IdsRepeat | cable_core/src/manager.rs:161-174 | two allocations give the same request id exactly if their distance is a multiple of 2^32 |
| Layout.RequestIdBytes | cable_core/src/manager.rs:161-176 | a request id is its number in four bytes, the one that counts most first |
| Effects.IgnoredIsDropped | cable_core/src/manager.rs:788-798 | a message is ignored, and changes nothing, exactly if its id was handled and is neither outbound nor live for its sender |
| Effects.PostRequestEffect | cable_core/src/manager.rs:803-819 | the whole effect of a post request: forwarded with one hop less if it has one, answered under its id and circuit with the payloads known |
| Effects.CancelEffect | cable_core/src/manager.rs:820-833 | the whole effect of a cancel: forwarded, and exactly the sender's live requests of that id and the outbound one go; with ttl 0 it panics |
| Effects.TimeRangeEffect | cable_core/src/manager.rs:834-896 | the whole effect of a time range request: all hashes of the range for limit 0, else the first min(limit, 4096, n); kept alive exactly if it has no end, and unanswered only if then there is nothing to list |
| Effects.TimeRangeListsHistory | cable_core/src/manager.rs:834-896 | that answer in terms of the history of the store |
| Effects.StateEffect | cable_core/src/manager.rs:897-971 | the whole effect of a channel state request: answered and closed for future 0, kept alive and answered for 1, only forwarded otherwise |
| Effects.ChannelsEffect | cable_core/src/manager.rs:1086-1094 | a channel list response makes exactly the listed channels known in addition, and does nothing else |
| Effects.HashesEffect | cable_core/src/manager.rs:1012-1038 | a hash response: one request with one hop for exactly what is lacking, under a new id, and exactly those hashes marked |
| Effects.MarksUsed | cable_core/src/manager.rs:1064-1084 | a post response uses up exactly the marks of the posts it hands to the store |
| Effects.PostsEffect | cable_core/src/manager.rs:1041-1085 | the whole effect of a post response: the store moves by the posts taken in, in their order, their marks are used up, nothing is sent |
| Effects.OpenRecords | cable_core/src/manager.rs:193-228 | opening a channel records a time range and a state request as local ones under two different ids, leaves every other outbound request, and sends both to exactly the targets |
| Effects.OpenThenConnect | cable_core/src/manager.rs:193-286 | a peer that connects after a channel was opened is sent both its requests |
| Effects.OpenThenClose | cable_core/src/manager.rs:193-265 | closing it cancels and forgets the time range request, and leaves the state request outbound |
| Effects.CloseEffect | cable_core/src/manager.rs:232-265 | closing forgets exactly the local time range requests of the channel, keeps every other outbound request as it is, and sends every target a cancel for each forgotten |
| Effects.RequestProcessed | cable_core/src/manager.rs:440-457 | a request that is local or no cancel, before a new peer: dropped without a hop left, else sent once and, if remote, recorded as forwarded to that peer |
| Effects.CancelProcessed | cable_core/src/manager.rs:403-457 | a remote cancel: skipped exactly if its request was forwarded, but not to this peer; the record of that request loses the peer; with a hop left it is sent twice to a peer that the request was forwarded to |
| Effects.ForwardRecorded | cable_core/src/manager.rs:393-461 | over a whole pass: a remote request sent to a new peer is recorded, unless a cancel for it is outbound too |
| Effects.DeletePostsEffect | cable_core/src/manager.rs:502-522 | `post_delete` bars exactly the listed hashes besides those barred before, and stores the delete post |
| Effects.BarredExactly | cable_core/src/manager.rs:502-522 | nothing but `post_delete` bars a hash, and no action lifts a bar |
| Effects.AdmittedOnly | cable_core/src/manager.rs:1045-1084 | what a response hands to the store was requested, is not barred, verified and decoded whole |
| Effects.BarredForever | cable_core/src/manager.rs:1053-1060 | once a hash is barred, no response of any later run hands the store a post of that hash |
| Effects.DeletedStaysOut | cable_core/src/manager.rs:502-522 | so for every hash that `post_delete` was given: a post of it reaches the store in a later run only by a local command |
| Rounds.Perform | cable_core/src/manager.rs:779-1106 | any sequence of actions on the class is the run of the state machine, and nothing sent carries an id that was dead at the start and is not allocated |
| Requests.DeadIsAbsorbing | cable_core/src/manager.rs:788-798 | an id that is handled, not outbound and live for nobody stays so through every message and local command that does not allocate it, and nothing tagged with it is sent; a message allocates only as a hash response, not dropped, that lists unknown posts |
| Requests.DeadForever | cable_core/src/manager.rs:779-1106 | over whole runs: nothing tagged with a dead id is ever sent again unless it is allocated locally |
| Requests.CancelKillsExactly | cable_core/src/manager.rs:820-833 | a cancel by the only live holder makes the id dead if and only if its ttl is positive; with ttl 0 it panics and changes nothing |
| Requests.CancelledIsSilent | cable_core/src/manager.rs:820-833 | after such a cancel nothing tagged with the id is sent, whatever follows |
| Requests.HandleForwards | cable_core/src/manager.rs:768-776 | a message adds at most itself, one ttl lower, to the outbound requests, and a non-cancel only if its ttl was positive |
| Requests.ProcessOutboundShape | cable_core/src/manager.rs:393-461 | only outbound requests are sent to a new peer, and none with an exhausted ttl unless a cancel |
| Requests.ActForwarded | cable_core/src/manager.rs:393-461 | every action keeps the record of forwarded requests true |
| Requests.ForwardedOverRuns | cable_core/src/manager.rs:393-461 | over whole runs: every peer recorded for an id was sent that id, and no recorded set is empty |
| Network.NetKept | cable_core/src/manager.rs:393-461 | in a network of any peers, every delivery, command, connection and injected packet keeps every request on its trip |
| Network.NetOverRuns | cable_core/src/manager.rs:393-461 | so does every run |
| Network.BoundedTravel | cable/src/message.rs:37-42 | a non-cancel request on its k-th forward carries its first ttl less k, which is at least 1, so every chain of forwards is shorter than the first ttl |
| Sync.RoundConverges | cable_core/src/manager.rs:803-1085 | B handles A's answer to a time range request, A answers B's post request, B handles the posts, each step in iteration orders of its own: every listed hash is then in B's store or in B's deleted posts |
| Sync.ReachableRound | cable_core/src/manager.rs:803-1085 | the same for any A that started with an empty store, after any run in which the posts that reached its store are valid and signed |
| Sync.RoundBringsAll | cable_core/src/manager.rs:803-1085 | so without a limit every undeleted text and topic post of the channel in the range that A was ever handed is in B's store or barred by B after the round |
| Rounds.Round | cable_core/src/manager.rs:309-321 | the same for two objects, every message encoded, cut into reads, deframed and decoded on its way |
| Rounds.HashesSendable | cable/src/message.rs:488-491 | a hash response fits a connection if and only if it lists at most 1562 hashes; a full answer of 4096 does not |
| Rounds.RequestSendable | cable/src/message.rs:458-462 | so for a post request |
| Rounds.LimitedSendable | cable_core/src/manager.rs:846-864 | a time range request with a limit from 1 to 1562 is always answered with a list that fits |
| Peers.StoreOfRun | cable_core/src/manager.rs:779-1106 | after any run of messages and local commands, the store is that of the posts handed to it in order, but for channels learnt from others |
| Peers.PeerAgrees | cable_core/src/manager.rs:779-1106 | so every index of a reachable peer agrees with the history of its posts |
| Peers.PeerPostHashes | cable_core/src/store.rs:764-790 | the range query of a reachable peer lists exactly the undeleted text and topic posts of the channel in the range, sorted by time |
| Peers.PeerQueries | cable_core/src/store.rs:476-660 | the other queries of a reachable peer answer as the store of its posts does; its payloads hash to their keys and its indexed hashes have payloads |
| Sync.AdmitAll | cable_core/src/manager.rs:1045-1084 | every requested valid and signed post of a response ends up stored or barred, and nothing stored is lost |
| Sync.ListedIsServed | cable_core/src/store.rs:764-790 | in any store that agrees with the history of valid signed posts, every hash that a range query lists resolves to such a post with that hash |
| Sync.Lists | cable_core/src/manager.rs:834-896 | A's answer lists the front of its range query (all of it for limit 0, else min(limit, 4096, n) hashes), and leaves its store alone; there is none only for an empty list of a live request |
| Sync.Wants | cable_core/src/manager.rs:1012-1035 | B asks for exactly what it lacks and marks it as requested |
| Sync.Serves | cable_core/src/manager.rs:803-819 | A answers with the payloads asked for |
| Sync.Admits | cable_core/src/manager.rs:1045-1084 | B takes them in |
| Steps.InsertRefined | cable_core/src/store.rs:792-912 | the critical sections of `insert_post`, run without interruption, amount to the insertion in one go, for every post type and error |
| Steps.RunExamines | cable_core/src/store.rs:832-851 | the same for the loop of a delete post |
| Admission.InsertShape | cable_core/src/store.rs:792-885 | every insertion writes only its own hash and its payload last; only delete posts remove, and only what they list |
| Admission.RemovalShape | cable_core/src/store.rs:904-912 | a removal ends with the payload |
| Interleavings.InsertsWithinRequests | cable_core/src/manager.rs:1030-1084 | in every interleaving of critical sections, insertions of a hash from post responses never outnumber the times it was marked requested |
| Interleavings.NeverPutBack | cable_core/src/manager.rs:502-522 | once a hash is in the deleted posts it stays there, and in every later interleaving no step of a post response brings it to any index |
| Interleavings.DeletedIsGone | cable_core/src/manager.rs:502-522 | once `post_delete` of an own post has completed, the hash is in none of the six indexes in any later state, unless a turn of the run clashes over it: a local post writing it while it is removed or after it was barred, or a response writing it while a delete post published without barring removes it |
| Clashes.LocalClash | cable_core/src/manager.rs:587-618 | a run from the start, for any text post and delete post: a local post of the same hash overlaps the deletion, which completes, and the post is indexed again |
| Clashes.ResponseClash | cable_core/src/manager.rs:1045-1084 | a run from the start without any local post of that hash: a response writes it while a delete post published through `post` removes it, and a later `post_delete` completes with the post still indexed |
| Interleavings.StepSound | cable_core/src/manager.rs:1045-1084 | every turn of every task, delete posts published through `post` included, keeps the locks exclusive and the insertions paid |
| Interleavings.RunClean | cable_core/src/manager.rs:502-522 | every run without a clash over a hash keeps its removals orderly, its entries backed by a payload and its deletions effective |
| Interleavings.StepOrderly | cable_core/src/manager.rs:1064-1084 | the locks exclude what they should: one admission at a time, and never of a barred hash |
| Interleavings.StepPaid | cable_core/src/manager.rs:1030-1084 | each insertion begun used up one mark |
| Interleavings.WorkBacked | cable_core/src/store.rs:792-912 | wherever a hash is indexed, its payload is stored or certain to be, through every critical section |
| Interleavings.StepErased | cable_core/src/store.rs:832-855 | a deletion under way has removed the payload of an own post or still means to |
| Interleavings.StepPlayed | cable_core/src/store.rs:967-969 | tasks write, and the store holds, nothing but posts that the run began with |
| Alone.DeleteAlone | cable_core/src/manager.rs:502-522 | run alone, the critical sections of `post_delete` do to the barred hashes, the marks and the store what the step of the state machine does |
| Alone.PublishAlone | cable_core/src/manager.rs:587-618 | the same for `post` |
| Alone.RespondAlone | cable_core/src/manager.rs:1041-1085 | the same for a post response, early ends included |
| Alone.HashAlone | cable_core/src/manager.rs:1012-1038 | the same for a hash response |
| Writes.HoldsAfter | cable_core/src/store.rs:792-948 | what each critical section does to each slot of each index: it holds a hash after it exactly if it was written, or held and not cleared |
| Writes.GoneExactly | cable_core/src/store.rs:792-948 | in every interleaving, a hash is missing from an index if and only if every writing of it there was followed by its removal or by another post taking the slot: the exact condition for a completed deletion to last |
| Answers.AnswerAdmitted | cable_core/src/manager.rs:1041-1085 | however the handling of a post response interleaves with everything else: a hash marked as requested when it begins, with a post of that hash in the response, has been stored since or is barred when it is over |
| Answers.EarlyAnswer | cable_core/src/manager.rs:1016-1034 | a run in which the answer is handled between the sending of the request and the marking of its hashes: it is thrown away, the post neither stored nor barred |
| Handlers.StepQuiet | cable_core/src/manager.rs:779-1106 | every critical section of every handler and command keeps a dead id dead and silent, unless it allocates it or a handler past its looks carries it |
| Handlers.QuietForever | cable_core/src/manager.rs:779-1106 | over every interleaving of handlers and commands: an id that is dead, with no handler in flight past its looks with it, stays so, and nothing tagged with it is sent again unless it is allocated |
| Handlers.CancelOvertaken | cable_core/src/manager.rs:788-833 | a run in which a copy of a live request is in flight when it is cancelled: the id is dead once the cancel is handled, and then live again and answered |
| Handlers.HandlerRefined | cable_core/src/manager.rs:779-1106 | run without interruption, the critical sections of a handler do to the tables, and send, what the handler in one step does |
| Handlers.LooksRefined | cable_core/src/manager.rs:788-798 | run alone, the three looks of a handler drop a message exactly when the handler in one step does |
| Handlers.OpenRefined | cable_core/src/manager.rs:193-228 | the critical sections of `open_channel` do to the tables, and send, what the command in one step does |
| Handlers.CloseRefined | cable_core/src/manager.rs:258-263 | so do the cancels of `close_channel` |

## Left out

- The Noise key exchange (handshake/src/lib.rs, handshake/src/sync/handshake.rs): typestate wrappers over a library that is not part of this model.
- The insides of BLAKE2b, Ed25519 and the AEAD: functions with laws as hypotheses.
- The async runtime, sockets, bounded channels, wakers, live post streams and their `Drop`: plumbing.
- The order in which locks are acquired, and deadlock: critical sections are atomic steps.
- `get_posts` and `get_posts_live`: they return posts where `get_post_hashes` returns their hashes, and would add the same members again.
- The order of channels in a channel list response: any order of the set, of which the sorted one is an instance.
- Completeness of channel state responses: the handler is marked unfinished in the source.
- Whether the hashes in `delete_hashes` resolve: `delete_post` does not clean that index, so the integrity results leave it out.
- Clocks, random first request ids, key generation, `Display` and error texts.
- The little-endian traits of `desert`, signed and floating-point built-in types, and the async copies of the stream functions: the same proofs again.
- Wrap-around in builds without overflow checks, and running out of memory on a huge declared length.
- Interleavings.DeletedIsGone: excepts runs with a turn that clashes over the hash (`Admission.Clash`); nothing in the source excludes those, and `Clashes.LocalClash` and `Clashes.ResponseClash` are such runs. Which runs with a clash fail is what `Writes.GoneExactly` says.
- Queries.TopicRefinesHistory: assumes distinct timestamps of a channel's topic posts; `Queries.TopicIffLastUndeleted` has the exact condition.
- Queries.NameRefinesHistory: assumes distinct timestamps of an author's info posts; `Queries.NameIffLastUndeleted` has the exact condition.
- Sync.RoundConverges: leaves out tasks that run between the four steps; `Answers.AnswerAdmitted` covers the handling of the posts in any interleaving, and `Answers.EarlyAnswer` the one in which the round fails.
- Requests.DeadForever: is about handlers that run to completion; `Handlers.QuietForever` is about their critical sections.
