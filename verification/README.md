# Verified model of the ICON bridge core

A Dafny model of the parts of the bridge that carry its guarantees, with proofs about every
input and every run.

| modules | what they model |
|---|---|
| `BitOps`, `Merkle`, `MtaIndex`, `MtaSpec`, `MtaNode`, `MtaAccumulator`, `ExtAccumulator` | the Merkle tree accumulator: a binary counter of perfect trees, witnesses, verification across ages, storing and recovering |
| `IntConv`, `Rlp`, `RlpReader`, `CodecValue`, `CodecTyped`, `CodecEqual`, `CodecFields`, `Encoder`, `Decoder`, `DecoderHandles`, `Codec` | the integer and RLP codecs: streaming writer and reader against the plain recursive encoding |
| `RelayFilter`, `RelayRun`, `RelayRestart`, `RelayProgress` | the relay loop: the in-place filter, and the loop with its source and destination as a step system |
| `ReceiveLoop`, `Finder`, `Matchers` | the block receive loop and its watch cache |
| `LayerDb` | the layered database |

SHA3 is the constant `Merkle.Sha3`, any function from byte strings to 32-byte strings.
Soundness results name a pair of different inputs with one digest, or hold outright.
State that the program updates in place is in classes; each method is proved against a
function of the old state, and the lemmas about that function carry the properties.

## Where the code does not do what one would expect

- An older accumulator does not accept every newer witness: the search for the depth does
  not skip empty slots. `MtaSpec.NewerWitnessVerdict` gives the exact condition; two lemmas
  give concrete witnesses that are refused and that cut beyond the slice.
- Asking an accumulator for a witness at a length it has not reached panics as soon as the
  leaf would be in a higher slot by then (`MtaSpec.WitnessAtFuture`).
- Asking for a leaf at a length at which it was not there yet gives an empty witness and no
  error (`MtaSpec.WitnessAtMissing`).
- The extended accumulator takes a time that is still to come for now, so it judges a newer
  witness as one of its own age and never by its own time (`ExtAccumulator.VerifyAtClamps`).
- A declared RLP size of 2^63 or more is negative as Go's `int`. Such an item is skipped
  without an error as if it were empty, such a list is opened as an empty one, and such a
  byte string panics when it is read or copied (`RlpReader.HugeBytes`, `RlpReader.HugeList`).
  Copying panics a few bytes earlier, when the length with the framing reaches 2^63:
  `RlpReader.CopiesWhatIsSkipped` gives the exact condition.
- The null item cannot tell a nil pointer from a pointer to a nil slice, list or map.
  `CodecTyped.Faithful` is the exact condition for a value to come back
  (`CodecTyped.TypedRoundTrip`, `Codec.RoundTrip`).
- A status of an old block can end the relay loop although nothing is missing. The guard
  against it is one block height, which is forgotten after a failed receipt call, because
  the loop throws the later heights away, and which a status that was acted on does not
  raise. `RelayRun.StopsIff` gives the exact condition, and two runs show the two ways
  there (`RelayRun.OldStatusAfterRetry`, `RelayRun.OldStatusAfterRestart`). No event is lost.
- A node that reports block 0 as beyond its head makes the receive loop's `latest` wrap
  around (`ReceiveLoop.LatestBelow`).
- The layered bucket accepts an empty key that the map-backed bucket refuses
  (`LayerDb.Replay`), and from then on it cannot be flushed (`LayerDb.EmptyKeyBlocks`).
- With several matchers the watch cache can lose a watch or fire one twice
  (`Finder.SecondMatcherLoses`). It does not exactly as long as every removal finds its
  watch still in its slot (`Matchers.BalancedIff`), as it does while no two pending lookups
  share a slot (`Matchers.ApartConserves`).

## Model

| member | source | states |
|---|---|---|
| Merkle.BlockPerfect | common/mta/accumulator.go:240-268 | the tree over an aligned block of 2^i leaves is perfect of depth i |
| Merkle.BlockStable | common/mta/accumulator.go:240-268 | appending leaves changes no earlier block tree |
| Merkle.PathStable | common/mta/accumulator.go:373-379 | appending leaves changes no path inside a block that was already there |
| Merkle.PathPrefix | common/mta/accumulator.go:373-379 | the path to a lower level is the front of the path to a higher one |
| Merkle.PathComplete | common/mta/accumulator.go:381-406 | folding a leaf with its own path gives the digest of its block |
| Merkle.FoldSound | common/mta/accumulator.go:381-406 | a witness that folds to a block's digest is the path of the leaf its directions point at, and the hash is that leaf, unless `Divergence` returns two different inputs with one digest |
| MtaIndex.SlotChar | common/mta/accumulator.go:349-371 | the slot of a leaf is the only one whose tree covers it, both directions |
| MtaIndex.SlotMono | common/mta/accumulator.go:373-379 | a leaf never moves to a lower slot as the accumulator grows |
| MtaIndex.WitnessHistory | common/mta/accumulator.go:373-379 | the witness a leaf had at an earlier length is the front of its witness now |
| MtaIndex.GetHeightFromWitness | common/mta/accumulator.go:483-504 | the loop over directions and length bits, with negative results and all, is `IndexOf` |
| MtaIndex.IndexOfWitness | common/mta/accumulator.go:483-504 | reading the index off a genuine witness gives the leaf's index |
| MtaIndex.GetDepthByHeightAndAccLength | common/mta/accumulator.go:506-524 | the loop over the bits of the length is `DepthAt` on every input |
| MtaIndex.DepthFound | common/mta/accumulator.go:506-524 | for every leaf the depth found is the length of its witness |
| MtaIndex.WitnessesToHashes | common/mta/accumulator.go:461-467 | keeps the digests in order |
| MtaIndex.HashesToWitness | common/mta/accumulator.go:469-481 | directions follow the bits of the index from the lowest; for a negative index, those of its absolute value |
| MtaIndex.HashesRoundTrip | common/mta/accumulator.go:461-481 | stripping a leaf's witness to digests and rebuilding it from the index gives it back with its directions |
| MtaSpec.SlotsTop | common/mta/accumulator.go:240-268 | the slots are exactly those up to the highest set bit, so the top one is occupied |
| MtaSpec.SlotsHoldLeaves | common/mta/accumulator.go:240-268 | read from the highest to the lowest, the trees in the slots hold exactly the appended leaves, in order |
| MtaSpec.CarryStops | common/mta/accumulator.go:240-268 | where the carry of an append stops: lower slots empty, this one holds the new block, higher ones are unchanged, and the new leaf is in this slot |
| MtaSpec.CarryMerges | common/mta/accumulator.go:240-268 | a carry through an occupied slot joins two neighbouring blocks and extends the new leaf's path by the left digest |
| MtaSpec.Complete | common/mta/accumulator.go:349-371 | for every leaf the verdict on its own witness is acceptance |
| MtaSpec.Sound | common/mta/accumulator.go:381-406 | acceptance means that the hash is the leaf at the index read off the witness and the witness is that leaf's own, unless `Forgery` returns a digest collision |
| MtaSpec.WrongLeaf | common/mta/accumulator.go:381-406 | another digest with a leaf's own witness is NotMatched, or there is a collision |
| MtaSpec.WitnessAtHistory | common/mta/accumulator.go:373-379 | asked for an earlier length, the newer accumulator returns the witness of that time |
| MtaSpec.WitnessAtMissing | common/mta/accumulator.go:373-379 | asked for a length at which the leaf was not there yet, it answers with an empty witness and no error |
| MtaSpec.MissingRefused | common/mta/accumulator.go:408-428 | such a witness is taken for that of the last leaf of that length, and does not match any other |
| MtaSpec.WitnessAtFuture | common/mta/accumulator.go:373-379 | asked for a later length it answers exactly while the leaf would still be in the same slot, and panics otherwise |
| MtaSpec.WitnessAtFuturePanics | common/mta/accumulator.go:373-379 | one leaf, asked for at length two, panics |
| MtaSpec.OlderWitnessAccepted | common/mta/accumulator.go:408-440 | every genuine older witness is accepted by every later accumulator |
| MtaSpec.OlderDepthFinds | common/mta/accumulator.go:430-437 | the depth search of an older accumulator finds the leaf's slot exactly when no slot above it is empty, and otherwise stops at an empty one |
| MtaSpec.NewerWitnessVerdict | common/mta/accumulator.go:408-440 | a genuine newer witness is accepted by an older accumulator if and only if every slot above the leaf's tree is occupied; otherwise it is refused or cut past its end; a leaf not there yet is refused |
| MtaSpec.NewerWitnessRefused | common/mta/accumulator.go:429-440 | leaf 4 of five with the witness of length six is refused |
| MtaSpec.NewerWitnessPanics | common/mta/accumulator.go:429-440 | leaf 8 of nine with the witness of length ten cuts beyond the slice |
| MtaSpec.SoundAt | common/mta/accumulator.go:408-440 | acceptance across ages means that the hash is the leaf at the index read off the witness, with that leaf's own siblings as far as they are compared, and for a newer witness that every slot above is occupied; a negative reading means the leaf that the directions give; unless `ForgeryAt` returns a collision |
| MtaNode.FlushResolves | common/mta/accumulator.go:143-222 | after a tree is stored without a digest clash, every hash node of it resolves from the bucket to the same tree, and all data of its leaves that was in memory can be read back by its digest |
| MtaNode.PutsByDigest | common/mta/accumulator.go:143-162 | writing nodes keeps a bucket one that stores by digest |
| MtaNode.ClashIsCollision | common/mta/accumulator.go:143-162 | in a bucket that stores by digest, two values that a flush puts under one digest collide |
| MtaNode.WalkPerfect | common/mta/accumulator.go:104-113 | on a perfect tree backed by the bucket the walk collects the path and changes no tree |
| MtaNode.WalkKeepsDigest | common/mta/accumulator.go:104-113 | whether a walk fails or not, and whatever bytes it reads in, no digest changes |
| MtaNode.WalkFailsAsFind | common/mta/accumulator.go:164-182 | a leaf's witness fails exactly when its node is not found, with the same error, and always if a branch is where the leaf should be |
| MtaNode.WalkKeepsPending | common/mta/accumulator.go:164-182 | no walk loses data that waits to be stored |
| MtaNode.FindPerfect | common/mta/accumulator.go:526-555 | on a perfect tree backed by the bucket the descent ends at the leaf |
| MtaNode.TreePathIsPath | common/mta/accumulator.go:164-182 | walking down a block's tree collects the path of the leaf |
| MtaNode.TreeLeafIsLeaf | common/mta/accumulator.go:526-555 | walking down a block's tree ends at the leaf |
| MtaNode.Node.Hash | common/mta/accumulator.go:128-141 | caches digests without changing the tree |
| MtaNode.Node.Flush | common/mta/accumulator.go:143-222 | writes left, right, then itself, and the data of leaves, skipping what is stored; the bucket gets exactly `Writes` |
| MtaNode.Node.Resolve | common/mta/accumulator.go:79-102 | a hash node becomes a branch over two hash nodes with the stored digests, whether they hash to its key or not; a missing value or one of another length is InvalidData |
| MtaNode.Node.Descend | common/mta/accumulator.go:526-555 | is `Find` for every depth and index: the node of the leaf, or the node and the error where depth or bucket fail; changes nothing |
| MtaNode.Node.WitnessFor | common/mta/accumulator.go:164-182 | is `Walk` for every depth and index: the siblings, or InvalidDepth or InvalidData and no witness; what was read in replaces hash nodes in place |
| MtaNode.FlushOrder | common/mta/accumulator.go:143-162 | the writes of a branch are those of its children before its own |
| MtaAccumulator.Accumulator.Place | common/mta/accumulator.go:240-268 | the carried node goes into the empty or appended slot and the accumulator holds one more leaf |
| MtaAccumulator.Accumulator.Merge | common/mta/accumulator.go:240-268 | takes the tree out of an occupied slot and joins it, on the left, with the carried one |
| MtaAccumulator.Accumulator.AddNodeAt | common/mta/accumulator.go:240-268 | keeps the shape invariant, appends exactly the new leaf, and returns its witness |
| MtaAccumulator.Accumulator.AddNode | common/mta/accumulator.go:326-329 | appends a leaf node and returns its witness |
| MtaAccumulator.Accumulator.AddHash | common/mta/accumulator.go:331-337 | appends a given digest and returns its witness |
| MtaAccumulator.CarriedWaits | common/mta/accumulator.go:240-268 | an append keeps all data that waits to be stored, and adds that of the new node |
| MtaAccumulator.Accumulator.AddData | common/mta/accumulator.go:339-347 | appends the digest of the data and returns its witness; the data waits to be stored |
| MtaAccumulator.Accumulator.FindRoot | common/mta/accumulator.go:355-364 | the loop from the top slot finds the leaf's slot and its place in the tree |
| MtaAccumulator.Accumulator.WitnessFor | common/mta/accumulator.go:349-371 | the leaf's witness, NotFound beyond the end, the first leaf's for a negative index; no leaf changes |
| MtaAccumulator.Accumulator.WitnessForWithAccLength | common/mta/accumulator.go:373-379 | is `WitnessAt` on every input |
| MtaAccumulator.Accumulator.Verify | common/mta/accumulator.go:381-406 | is `Judge` on every input |
| MtaAccumulator.Accumulator.VerifyWithAccLength | common/mta/accumulator.go:408-440 | is `JudgeAt` on every input, with its panics as a verdict |
| MtaAccumulator.Accumulator.GetNode | common/mta/accumulator.go:442-459 | the node of the leaf, resolved from the bucket where needed |
| MtaAccumulator.Accumulator.FlushRoots | common/mta/accumulator.go:275-295 | stores every tree, lists the root digests, and changes no tree |
| MtaAccumulator.Accumulator.Restore | common/mta/accumulator.go:297-324 | loads any list of root digests and any length; if they are those of a sequence of leaves that the bucket backs, it is the accumulator of those leaves |
| ExtAccumulator.WitnessAtEarlierHeight | common/mta/extaccumulator.go:139-172 | with equal offsets, the witness for an earlier height is the one of that time and is accepted |
| ExtAccumulator.WitnessAtLaterHeight | common/mta/extaccumulator.go:139-172 | for a height not reached yet the current witness and height come back, and are accepted |
| ExtAccumulator.VerifyAtClamps | common/mta/extaccumulator.go:159-172 | a genuine witness of a later height is judged as one of now: accepted if and only if the leaf is still in the same slot, otherwise NewerWitness or NoRoot by the slot it moved to |
| ExtAccumulator.VerifyAtRefuses | common/mta/extaccumulator.go:159-172 | one leaf with its witness among two: refused, though `VerifyWithAccLength` accepts it |
| ExtAccumulator.StateRoundTrip | common/mta/extaccumulator.go:21-29 | the stored state reads back as it was written, empty slots included |
| ExtAccumulator.VerifyAtSound | common/mta/extaccumulator.go:159-172 | a witness is accepted only for the accumulator's own offset, and then the digest is the leaf that the witness points at, or there is a collision |
| ExtAccumulator.WitnessForAtOwn | common/mta/extaccumulator.go:139-157 | another offset gets no witness, and none is for a time to come |
| ExtAccumulator.ExtAccumulator.AddData | common/mta/extaccumulator.go:129-137 | appends the digest of the data and returns its witness; the data is kept from then on, in memory or in the bucket |
| ExtAccumulator.DataStored | common/mta/accumulator.go:213-222 | after a flush without a clash the bucket has all data ever added under its digest |
| ExtAccumulator.ExtAccumulator.WitnessForAt | common/mta/extaccumulator.go:139-157 | is `WitnessForAtSpec` on every input |
| ExtAccumulator.ExtAccumulator.VerifyAt | common/mta/extaccumulator.go:159-172 | is `VerifyAtSpec` on every input |
| ExtAccumulator.ExtAccumulator.Flush | common/mta/extaccumulator.go:43-71 | fails exactly on an empty key; otherwise the bucket holds the encoded state, all trees and all data ever added, or two values with one digest are returned, which collide if the bucket stores by digest, as it still does afterwards |
| ExtAccumulator.ExtAccumulator.Recover | common/mta/extaccumulator.go:73-108 | for any stored bytes: none is an empty accumulator, undecodable ones change nothing, any state that decodes is loaded, and an offset that differs is reported after that |
| ExtAccumulator.ExtAccumulator.RecoverFlushed | common/mta/extaccumulator.go:73-108 | what a flush stored gives the accumulator of the flushed leaves |
| ExtAccumulator.PersistedBelongs | common/mta/extaccumulator.go:80-98 | what a flush stored decodes to its offset, its length and its root digests |
| ExtAccumulator.OtherLengthFree | common/mta/extaccumulator.go:43-71 | a state key of another length than a digest is never the key of a node |
| ExtAccumulator.FlushAndRecover | common/mta/extaccumulator.go:43-108 | flush, then open anew from the bucket alone: the same leaves, and so the same witnesses and verdicts, and all data ever added by its digest, unless the flush returned a collision |
| IntConv.SignedBytesRight | common/intconv/bytes.go:13-32 | the signed form denotes its number and is minimal |
| IntConv.MinimalIsShortest | common/intconv/bytes.go:13-32 | no byte string for the same number is shorter than a minimal one |
| IntConv.MinimalUnique | common/intconv/bytes.go:13-32 | a number has one minimal form |
| IntConv.BigIntToBytes | common/intconv/bytes.go:13-32 | the bit-length, shift and subtract computation gives the minimal two's-complement form of any integer |
| IntConv.BigIntSetBytes | common/intconv/bytes.go:34-42 | reads any bytes as two's complement |
| IntConv.Int64ToBytes | common/intconv/bytes.go:115-134 | the byte loop agrees with the big-integer form on every int64 |
| IntConv.BytesToInt64 | common/intconv/bytes.go:97-113 | agrees with the big-integer reading, wrapped to 64 bits, on any bytes |
| IntConv.Uint64ToBytes | common/intconv/bytes.go:44-58 | the signed form of any uint64 |
| IntConv.BytesToUint64 | common/intconv/bytes.go:75-87 | the two's-complement reading of any bytes modulo 2^64 |
| IntConv.SizeToBytes | common/intconv/bytes.go:60-73 | the shortest unsigned form of any uint64 |
| IntConv.BytesToSize | common/intconv/bytes.go:89-95 | the unsigned reading of any bytes modulo 2^64 |
| IntConv.Int64RoundTrip | common/intconv/bytes.go:97-134 | every int64 comes back |
| IntConv.Uint64RoundTrip | common/intconv/bytes.go:44-87 | every uint64 comes back |
| IntConv.SizeRoundTrip | common/intconv/bytes.go:60-95 | every size comes back, from one to eight bytes without a leading zero |
| Rlp.HeadOfBytes | common/codec/rlp.go:322-353 | the header of encoded bytes reads back with kind, header length and size, across the 55-byte boundary |
| Rlp.HeadOfList | common/codec/rlp.go:355-378 | the same for a list |
| Rlp.HeadOfNull | common/codec/rlp.go:316-320 | the null item reads back as null, and as nothing else |
| Rlp.RoundTrip | common/codec/rlp.go:316-378 | decoding an encoded item followed by any bytes gives the item and those bytes, for any nesting |
| Rlp.RoundTripAll | common/codec/rlp.go:99-176 | the same for a sequence of items |
| Rlp.PrefixFree | common/codec/rlp.go:316-378 | no encoding is a prefix of the encoding of a different item |
| RlpReader.Stream.ReadBytes | common/codec/rlp.go:136-176 | on any input, errors included: what is returned and where the reader then stands, with the enclosing lists untouched; a declared size of 2^63 or more panics |
| RlpReader.Stream.ReadList | common/codec/rlp.go:99-126 | opens exactly the content of the list, nothing if its size is 2^63 or more, and keeps what is behind it for the parent; after an error, where the reader stands |
| RlpReader.Stream.CloseList | common/codec/rlp.go:212-215 | whatever was read inside, the parent continues exactly behind the list |
| RlpReader.Stream.CloseTo | common/codec/rlp.go:212-215 | the same with any lists left open inside |
| RlpReader.Stream.SkipOne | common/codec/rlp.go:58-88 | consumes exactly the bytes of one item, or everything with an error; only the header if the size is 2^63 or more, without an error |
| RlpReader.Stream.ReadRaw | common/codec/rlp.go:230-260 | returns exactly the bytes of one item, or panics if it is 2^63 bytes or longer with its framing; errors as when it is skipped |
| RlpReader.CopiesWhatIsSkipped | common/codec/rlp.go:58-260 | `ReadRaw` returns what `SkipOne` consumes, with the same errors, if and only if the item is shorter than 2^63 bytes with its framing |
| RlpReader.HugeBytes | common/codec/rlp.go:136-162 | a byte string declared with 2^63 bytes is skipped without an error as if it were empty, and panics when read or copied |
| RlpReader.HugeList | common/codec/rlp.go:113-125 | a list declared with 2^63 bytes is an empty one, and what follows its header is taken to follow the list |
| RlpReader.SkipHead | common/codec/rlp.go:58-88 | the case split over the tag byte skips exactly the item that the header announces |
| RlpReader.CopyHead | common/codec/rlp.go:230-260 | the case split over the tag byte copies exactly the item that the header announces |
| CodecValue.SortOrdered | common/codec/codec.go:267-301 | sorting puts distinct keys in order and keeps the pairs |
| CodecValue.OrderedUnique | common/codec/codec.go:267-301 | two ordered listings of the same pairs are equal |
| CodecValue.MapOrderIrrelevant | common/codec/codec.go:267-301 | maps with the same keys and the same items for their values encode to the same item in whatever order each is visited |
| CodecEqual.SameItem | common/codec/codec.go:237-301 | equal values of a type encode to the same item, with maps inside maps, lists, structs and pointers visited in any order at every level |
| CodecEqual.CanonSame | common/codec/codec.go:267-301 | sorting the entries of all its maps leaves an equal value |
| CodecEqual.CanonItem | common/codec/codec.go:267-301 | and does not change what a value encodes to |
| CodecEqual.SameBytesIff | common/codec/codec.go:237-314 | equal values have equal bytes, and `Faithful` values of a type have equal bytes only if they are equal |
| CodecEqual.KeysAscend | common/codec/codec.go:273-299 | read off the encoded map, its keys ascend: numbers by value, text by its bytes |
| CodecFields.FewerItems | common/codec/codec.go:482-503 | from fewer items than fields, each item goes to its field, and the others are false, 0, empty, nil, or a struct of such values |
| CodecFields.MoreItems | common/codec/codec.go:482-503 | from more items than fields, the fields get the first ones, whatever the others are |
| CodecFields.NullField | common/codec/codec.go:469-480 | a null item leaves its field blank, if and only if it is no pointer to something that has a nil of its own |
| CodecFields.FieldByField | common/codec/codec.go:482-503 | each field is read from its own item, and a null item touches no other field |
| CodecFields.BlankUnique | common/codec/codec.go:473-476 | a type has one blank value |
| CodecFields.ReadLonger | common/codec/codec.go:594-602 | a struct written with fewer fields than it is read with comes back with the new ones blank, and exactly what follows is left |
| CodecFields.ReadShorter | common/codec/codec.go:594-602 | a struct written with more fields comes back without them, and exactly what follows is left |
| CodecTyped.KeyRoundTrip | common/codec/codec.go:614-624 | a map key reads back from its bytes |
| CodecTyped.BoolAsNumber | common/codec/rlp.go:390-403 | a bool is encoded as the number 0 or 1, in one byte |
| CodecTyped.TypedRoundTrip | common/codec/codec.go:469-640 | an encoded value reads back, up to the order of map entries, if and only if it is `Faithful` |
| CodecTyped.NilPointerLost | common/codec/codec.go:469-480 | a nil pointer to bytes reads back as a pointer to nil bytes |
| CodecTyped.PairsRoundTrip | common/codec/codec.go:613-635 | the pairs of a map read back in order, whatever was read before |
| Encoder.CollapseTwice | common/codec/codec.go:99-120 | closing open children in one step or in several gives the same content |
| Encoder.FrameBytes | common/codec/rlp.go:322-353 | writes the plain encoding of a byte string |
| Encoder.FrameList | common/codec/rlp.go:355-378 | writes the plain encoding of a list from its content |
| Encoder.Encoder.WriteBytes | common/codec/rlp.go:380-383 | adds one item to the innermost open list and changes no other |
| Encoder.Encoder.WriteList | common/codec/rlp.go:280-303 | opens an empty list or map inside the innermost one |
| Encoder.Encoder.Close | common/codec/rlp.go:421-434 | moves a child's content into its parent as one list; a map with an odd count is refused and stays open |
| Encoder.Encoder.EncodeValue | common/codec/codec.go:237-314 | adds exactly the item of the value |
| Encoder.Encoder.EncodeMap | common/codec/codec.go:267-301 | adds exactly the item of the sorted map |
| Encoder.Encoder.Flush | common/codec/codec.go:105-120 | closes all open children below a level; what will be written in the end is unchanged |
| Encoder.Encoder.EncodeAt | common/codec/codec.go:316-331 | flushes the children of an encoder and adds one value to it |
| Encoder.Encoder.OpenList | common/codec/codec.go:122-146 | flushes the children of an encoder and opens a list in it |
| Encoder.Encoder.Finish | common/codec/codec.go:105-120 | with children still open, the bytes are the one-shot encoding of everything written |
| Decoder.DecodeValue | common/codec/codec.go:505-640 | on any input: a result has the type asked for and the reader then stands right behind the item its header announces, malformed inside or not; after an error it stands inside that item, in lists still open; from a well-formed item the result is the recursive reading |
| Decoder.DecodeSlice | common/codec/codec.go:557-584 | reads the elements to the end of the list and leaves it |
| Decoder.DecodeStruct | common/codec/codec.go:482-503 | with fewer or more items than fields, well-formed or not, the parent reader stands exactly behind the list |
| Decoder.DecodeMap | common/codec/codec.go:604-635 | reads key and value pairs to the end and leaves the list |
| DecoderHandles.Flush | common/codec/codec.go:380-386 | closes the list a decoder has left open, with all that is open inside, and continues right behind it |
| DecoderHandles.Decode | common/codec/codec.go:388-393 | a read starts where the decoder resumes, whatever was left open |
| DecoderHandles.DecodeList | common/codec/codec.go:402-408 | opens the next list from where the decoder resumes and keeps what follows it |
| DecoderHandles.DecodeAgain | common/codec/codec.go:380-393 | a read of a list, struct or map from a list, failed or not, and another read: that one starts exactly behind the list |
| DecoderHandles.DecodeBehindList | common/codec/codec.go:380-408 | a list opened, and any reads on decoders inside it, failing or not, to its end or not: the next read around it starts exactly behind the list |
| Codec.MarshalToBytes | common/codec/bytes.go:22-28 | the streaming encoder's bytes are the plain recursive encoding |
| Codec.UnmarshalFromBytes | common/codec/bytes.go:30-36 | from a well-formed item followed by anything: its reading, and exactly what follows |
| Codec.RoundTrip | common/codec/bytes.go:22-36 | encode, append anything, decode: the value comes back if and only if it is `Faithful` and not a null that its type reports as nil, the only error; what was appended is left |
| RelayFilter.FilterEventsInPlace | cmd/iconbridge/relay/relay.go:86-96 | overwriting the slice it reads, the inner loop keeps what the pure filter keeps |
| RelayFilter.Message.FilterSrcMsg | cmd/iconbridge/relay/relay.go:80-103 | overwriting receipt and event slices, the closure computes the pure filter and returns the missing sequence, or 0 |
| RelayFilter.EventsKept | cmd/iconbridge/relay/relay.go:86-96 | kept events are the next sequences in order, from the input, and no later event was passed over |
| RelayFilter.GapExact | cmd/iconbridge/relay/relay.go:86-96 | events are kept if and only if none jumps beyond the one expected after all before it; otherwise the sequence expected at the first jump is returned |
| RelayFilter.KeptFirst | cmd/iconbridge/relay/relay.go:86-96 | a kept event is the first with its sequence |
| RelayFilter.GapExactReceipts | cmd/iconbridge/relay/relay.go:80-103 | the same over the events of the receipts at or above the height |
| RelayFilter.FilterFlat | cmd/iconbridge/relay/relay.go:80-103 | filtering receipt by receipt equals filtering the events of the receipts at or above the height, and no kept receipt is empty |
| RelayFilter.Refilter | cmd/iconbridge/relay/relay.go:80-103 | filtering again with a larger sequence equals filtering the original once |
| RelayRun.FilterRange | cmd/iconbridge/relay/relay.go:80-103 | on a buffer of consecutive source events the filter keeps exactly those behind the link, and reports a gap exactly when the buffer starts behind the next one |
| RelayRun.HandleOk | solidity/bmc/contracts/BMCPeriphery.sol:98-162 | the message centre keeps its log a prefix of the source whatever genuine receipts it is given |
| RelayRun.HandleTakes | solidity/bmc/contracts/BMCPeriphery.sol:98-162 | receipts in a row that start no later than the log ends are taken without a revert, up to their end |
| RelayRun.ExecuteOk | solidity/bmc/contracts/BMCPeriphery.sol:98-162 | a block of transactions keeps the prefix, never shrinks it, and contains every transaction that went through |
| RelayRun.ArriveKeeps | cmd/iconbridge/relay/relay.go:146-168 | an arriving message continues the buffer without a gap |
| RelayRun.SegmentKeeps | cmd/iconbridge/relay/relay.go:170-197 | a status read at any block, old or new, filters and segments without losing an event |
| RelayRun.ReceiptKeeps | cmd/iconbridge/relay/relay.go:221-229 | a confirmed transaction takes out of the buffer only what the log then contains |
| RelayRun.RestartKeeps | cmd/iconbridge/relay/relay.go:53-76 | a new subscription keeps the invariant |
| RelayRestart.DeliversFromStatus | cmd/iconbridge/relay/relay.go:53-76 | from a restart to the next one, the relay is given exactly the events RxSeq+1, RxSeq+2, ... of the link read at the restart, in order and each once |
| RelayRestart.RestartGuards | cmd/iconbridge/relay/relay.go:116-180 | from a restart to the first receipt, no status of an older block than the one started on is acted on |
| RelayRestart.ReceiptGuardStays | cmd/iconbridge/relay/relay.go:178-229 | after a receipt that came with the first call, none older than its block is acted on until the next receipt |
| RelayRestart.RetriesExact | cmd/iconbridge/relay/relay.go:221-253 | after a send, 30 failed receipt calls and no fewer end the wait, with the batch still in the buffer |
| RelayRun.NextKeeps | cmd/iconbridge/relay/relay.go:122-258 | every step of relay, source and destination keeps the invariant |
| RelayRun.RunKeeps | cmd/iconbridge/relay/relay.go:122-258 | the invariant holds in every state of every run |
| RelayRun.RunReaches | cmd/iconbridge/relay/relay.go:122-258 | every state of every run is reachable, so what follows holds all along |
| RelayRun.LogIsPrefix | cmd/iconbridge/relay/relay.go:122-258 | on every run the destination's log is the first events of the source, numbered 1, 2, 3, ..., and later blocks extend earlier ones |
| RelayRun.NothingLost | cmd/iconbridge/relay/relay.go:122-258 | on every run every delivered event is in the buffer or in a log the relay has seen |
| RelayRun.BatchIsNext | cmd/iconbridge/relay/relay.go:187-192 | on every run a batch is exactly RxSeq+1, RxSeq+2, ... of the link just read, up to the last delivered event |
| RelayRun.StaleStatusStops | cmd/iconbridge/relay/relay.go:172-190 | a status stops the loop if and only if it is older than what has left the buffer, and then it is older than one already acted on |
| RelayRun.TransactionsGoThrough | cmd/iconbridge/relay/relay.go:192-229 | whenever and after whatever a transaction of the relay is executed, it does not revert |
| RelayProgress.NeverStuck | cmd/iconbridge/relay/relay.go:53-258 | from every state of every run there is a way on after which the destination has taken every event that the source has emitted |
| RelayRun.ReceiptGuards | cmd/iconbridge/relay/relay.go:221-229 | statuses older than the confirmed block are passed over if and only if the first receipt call succeeded |
| RelayRun.StopsIff | cmd/iconbridge/relay/relay.go:172-190 | on every run, some status that is not passed over ends the loop if and only if the log at the guard's block ends before the first buffered event |
| RelayRun.OldStatusAfterRetry | cmd/iconbridge/relay/relay.go:223-229 | a run in which the second receipt call succeeds and an old status then ends the loop with nothing missing |
| RelayRun.OldStatusAfterRestart | cmd/iconbridge/relay/relay.go:183-190 | such a run without a failed receipt call: the relay started over and went by a status alone |
| ReceiveLoop.LatestBelow | cmd/e2etest/chain/bsc/receiver_core.go:153-155 | a block reported as beyond the head lowers `latest` below it, except block 0, where it wraps to the largest height |
| ReceiveLoop.PlacedSize | cmd/e2etest/chain/bsc/receiver_core.go:137-195 | queued, flying and done requests always add up to the requests of the round |
| ReceiveLoop.Round.constructor | cmd/e2etest/chain/bsc/receiver_core.go:137-142 | one request per height from `next` below `latest`, at most the capacity, none tried yet, each with three retries |
| ReceiveLoop.Round.Complete | cmd/e2etest/chain/bsc/receiver_core.go:169-193 | a fetch that ends with any answer goes back to the queue without blocking, before the channel is closed, and the answer is recorded |
| ReceiveLoop.Round.Take | cmd/e2etest/chain/bsc/receiver_core.go:143-195 | fetches what was not asked for yet, asks again after an error while there are retries left, unless the block is beyond the head, enters the block of an answer without an error, and nothing otherwise; what is left to do shrinks |
| ReceiveLoop.Round.Gather | cmd/e2etest/chain/bsc/receiver_core.go:137-195 | for every schedule and all answers: it ends, with one entry per request, the block of the last answer if and only if that had no error; all answers before were other errors, and there were four if the last was one too; `latest` is right below the first block reported as beyond the head |
| ReceiveLoop.FilterNil | cmd/e2etest/chain/bsc/receiver_core.go:196-202 | moves the fetched notifications to the front over the slice it reads, in order |
| ReceiveLoop.SortKeeps | cmd/e2etest/chain/bsc/receiver_core.go:205-207 | sorting by height keeps the notifications and makes distinct heights ascend |
| ReceiveLoop.Forward | cmd/e2etest/chain/bsc/receiver_core.go:208-212 | although the loop does not stop at a gap, it sends the longest front without one |
| ReceiveLoop.Settle | cmd/e2etest/chain/bsc/receiver_core.go:196-213 | exactly the fetched blocks from `next` up to the first missing one are forwarded; all of them if and only if none failed |
| ReceiveLoop.Receiver.Process | cmd/e2etest/chain/bsc/receiver_core.go:107-122 | all notifications pass in order, the callback one behind; the loop ends with the first call of the callback that fails, and with no other |
| ReceiveLoop.Receiver.Fetch | cmd/e2etest/chain/bsc/receiver_core.go:124-213 | forwards exactly the blocks from `next` up to the first whose last answer had an error, each with the data of that answer; from a positive `next` it lowers `latest` exactly as the node reports |
| ReceiveLoop.Receiver.Turn | cmd/e2etest/chain/bsc/receiver_core.go:91-214 | one turn of the select in every case: `latest` counts up and wraps or follows a higher poll, all notifications are processed, or a round is fetched |
| ReceiveLoop.Receiver.Serve | cmd/e2etest/chain/bsc/receiver_core.go:86-215 | for every schedule and all answers the callback has been given StartHeight, StartHeight+1, ... with no gap and no repeat, each as the node answered it without an error |
| LayerDb.WrittenReads | common/db/layer_db.go:69-88 | writing any part of the pending changes to the store behind them changes no read; with all written the store is what is read |
| LayerDb.LayerBucket.Get | common/db/layer_db.go:15-25 | reads through pending changes, deletions included |
| LayerDb.LayerBucket.Has | common/db/layer_db.go:27-37 | tells whether a key is visible through pending changes |
| LayerDb.LayerBucket.Set | common/db/layer_db.go:39-55 | refuses nil; before the flush only the view changes, without a call; after it the real bucket does, and fails exactly if that call fails |
| LayerDb.LayerBucket.Delete | common/db/layer_db.go:57-67 | before the flush only the view changes, without a call; after it the real bucket does, and fails exactly if that call fails |
| LayerDb.LayerBucket.Flush | common/db/layer_db.go:69-88 | in any order of the map: written, the real bucket holds the view; dropped, it is untouched; failed part way, no read changes and the changes stay; it fails if and only if a call for one of the changes fails or an empty key is held with a value |
| LayerDb.EmptyKeyBlocks | common/db/layer_db.go:39-88 | with an empty key held back, every flush that is to write fails, until the key is deleted or the changes are dropped, whatever else is done |
| LayerDb.Replay | common/db/layer_db.go:15-67 | for any operations the answers are those of a directly written store if and only if no empty key is set, and the real bucket is untouched |
| LayerDb.Live | common/db/layer_db.go:15-88 | any sequence of reads, changes and flushes, with any failures, from any state: reads are exact, nothing held back fails, what is written fails only with a call on the real bucket or for an empty key, and view and real bucket change as `After` says |
| LayerDb.LifeIsDirect | common/db/layer_db.go:15-88 | as long as nothing is dropped, reads are those of a directly written store before, during and after any flush, and after a successful one the real bucket holds it |
| LayerDb.BaseUntouched | common/db/layer_db.go:39-67 | the real bucket is untouched until a flush |
| LayerDb.LayerDatabase.GetBucket | common/db/layer_db.go:98-119 | the same layer again, a new one that reads as the real bucket, or the real bucket after a flush; fails exactly if opening the real bucket does |
| LayerDb.LayerDatabase.Flush | common/db/layer_db.go:121-132 | in any order of the buckets; fails if and only if one of them cannot be written, and then no read of any bucket has changed and the database is not flushed |
| Finder.Cache.Add | cmd/e2etest/chain/bsc/finder.go:76-86 | adds the watch to the first void or at the end and overwrites no pending one |
| Finder.Cache.Lookup | cmd/e2etest/chain/bsc/finder.go:95-116 | finds the first matching watch and its id, or none and 0 if and only if none matches |
| Finder.Cache.Remove | cmd/e2etest/chain/bsc/finder.go:88-93 | clears one slot and with it the watch it held |
| Finder.Cache.Match | cmd/e2etest/chain/bsc/finder.go:67-74 | with any registrations between lookup and removal, exactly the watch found goes and all others stay |
| Finder.Cache.Serve | cmd/e2etest/chain/bsc/finder.go:67-116 | for any steps each watch is pending or has fired, exactly as often as it was registered; every event fires the first pending watch that matches it, and nothing exactly if none does |
| Finder.SecondMatcherLoses | cmd/e2etest/chain/bsc/finder.go:67-93 | with two matchers the second removal clears a watch registered in between, which matched nothing |
| Matchers.ClearConserves | cmd/e2etest/chain/bsc/finder.go:88-93 | a removal keeps every watch accounted for if and only if its slot still holds the watch found |
| Matchers.RunInRange | cmd/e2etest/chain/bsc/finder.go:88-93 | over any interleaving no removal is out of range |
| Matchers.BalancedIff | cmd/e2etest/chain/bsc/finder.go:67-116 | over any interleaving of any number of matchers, no watch is ever lost or fired too often if and only if every removal hits the watch its lookup found |
| Matchers.ApartConserves | cmd/e2etest/chain/bsc/finder.go:67-116 | while no two pending lookups share a slot, as with one matcher, every removal hits and nothing is lost |
| Matchers.SharedSlotBreaks | cmd/e2etest/chain/bsc/finder.go:67-93 | once two pending lookups share a slot, carrying out both removals loses or repeats a watch |

## Left out

- Network clients, wallets, key stores, command line, configuration and scripts: foreign calls only.
- SHA3 itself, signatures and key derivation: SHA3 is an arbitrary function here.
- Accumulator.Flush and Accumulator.Recover of the plain accumulator as JSON text: the trees and digests are `FlushRoots` and `Restore`, the stored state is modelled in its RLP form.
- Errors of the bucket under the accumulator: reads and writes of an existing bucket succeed, a missing value is modelled.
- 64-bit overflow of the accumulator's length, and witness slices with spare capacity.
- ExtAccumulator.ExtAccumulator.Flush: the bucket is known to hold the state and all trees only if the state key is not the digest of one of the nodes, which no key of another length than a digest is (`ExtAccumulator.OtherLengthFree`).
- ExtAccumulator.FlushAndRecover: the same condition on the state key.
- MtaAccumulator.Accumulator.AddNode: the node stands for one leaf, as those of `AddHash` and `AddData` do. A branch node added as a leaf makes the accumulator's own witness for it fail (`MtaNode.WalkFailsAsFind`).
- Which error malformed input gives, and what a decoder has read of it: a result without an error is always of the type asked for, and well-formed input is read exactly.
- Memory: a buffer of any size that is not negative can be made, where the run-time system stops sooner. Encodings of 2^63 bytes and more.
- Reflection, custom marshallers, fixed-size arrays and msgpack: values and schemas are datatypes.
- Encoder and decoder handles used after their parent has moved on: a handle is the level of an open list. DecodeMulti and DecodeListOf, which read as the fields of a struct are read.
- RelayRun: reorganisations of either chain, and destinations that skip or reject a message for other reasons than its sequence. The receiver delivers the source's events in order from the sequence it was asked for.
- RelayRun.TransactionsGoThrough: gas limits and failures outside the message centre are not modelled.
- Batch sizes of Segment: any front part of the buffer goes into the transaction, and any rest that leaves out no more than that; implementations that keep the whole message are included.
- The slices of a failed filter: the loop ends on a gap and does not use them again.
- Timers, sleeps, logging, balance checks and the trigger count of the relay.
- Fetched logs and headers, and the request object shared between fetches, in the receive loop: a notification is its height and some bytes.
- sort.SliceStable and the map iteration of the Go library: a stable insertion sort, and an arbitrary order.
- On-disk database back ends: a bucket is a map, and a failed change changes nothing.
- The callback predicates of watches: any predicate on a watch and an event log.
- The Merkle Patricia trie in common/mpt, BTP addresses, the multi relay and the Algorand contracts.
