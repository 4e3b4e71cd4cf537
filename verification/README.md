# Verified model of geese

The geese repository is a game framework: hubs and gates in Python, engine crates in Rust. This project models seven of
its parts in Dafny and proves what each of them is for. `dafny verify dfyconfig.toml` checks everything.
`Basics` holds what several parts share.

| part | files | what is modelled |
|---|---|---|
| MessagePack codec | `Bytes`, `MsgPackValue`, `MsgPackTimestamp`, `MsgPackFormat`, `MsgPackRoundTrip`, `MsgPackPrefix`, `MsgPackShortest`, `MsgPackStream`, `MsgPackDecoded`, `MsgPackWire`, `Packer`, `Unpacker` | The wire formats as functions on byte sequences; the writer and the streaming reader as classes that are proved against them. |
| Area of interest | `GridAoi`, `AoiManager` | The grid with its buckets, last visibility and pending events; the layer above with its id maps and mirrored caches. |
| Asset graph | `PrefabCycles`, `AssetBundle` | Depth-first cycle detection; dependency closure and bundle manifests. |
| Cooking | `TextureCooker`, `MeshCooker`, `MeshWeld` | Mip chains and their encoding; greedy triangle reordering; welding, normals and the pipeline over all three. |
| Undo and redo | `EditorCommands`, `CommandHistory` | Commands and nested groups acting on a document; the two stacks with eviction. |
| Animation | `Animation`, `BlendTree`, `ClipMerge`, `AnimationGraph`, `AnimationFlow` | Looping playback and markers; blend trees, merging and the state machine. |
| Sessions | `PlayerManager` | The player registry and its index by client connection under login, transfer and disconnect. |

Objects that the source updates in place are classes. Their methods state the whole new state, mostly as a function of the
old one, and the theorems about whole runs are lemmas about those functions. Where a claim that one would expect of the
code is false, a lemma states exactly when it holds and another one shows how it fails:

- `unpackb(pack(v)) == v` holds if and only if all dict keys in `v` are text or bytes (`RoundTrip`,
  `IntegerKeyIsRefused`), because the reader refuses other keys by default and the writer does not.
- `pack(v)` is shortest if and only if no double in `v` is a widened single (`ShortestForm`, `SinglesAreNotShortest`).
- An exact grid stays exact after an insertion if and only if no resident of another cell reaches the newcomer
  (`ExactAfterInsert`, `NewNeighbourIsMissed`), after a move if and only if everyone who then reaches the entity is
  recomputed (`ExactAfterUpdate`), and always after a removal. Once every entity has moved, a grid with one radius is exact
  whatever happened before (`SettledIsExact`).
- A run fires every marker as often as it is due if and only if no step covers a whole lap (`NoMarkerIsLost`,
  `TwoLapsAtOnce`). The end of a clip is reported once if and only if no update follows it (`EndsReported`, `EndTwice`).
- Blend weights add up to one if and only if all states with a share have something to play (`WeightsAddUp`,
  `NothingToPlay`). A change of state is reported if and only if its transition was running before the update
  (`Update`, `UnreportedSwitch`), and the end of a clip never is.
- A transfer keeps the connection index a partition if and only if nobody else is on the new connection
  (`TransferKeepsPartition`, `OverwrittenIsStranded`).

One comment in the source says something else than the code does, and the model follows the code: the rollback of a group
is said to start from the last executed member but asks all members.

## Model

| member | source | states |
|---|---|---|
| `MsgPackRoundTrip.RoundTrip` | `client/engine/msgpack/fallback.py:110-134` | Main result. For every value that `pack` accepts, `unpackb(pack(v)) == v` if and only if all dict keys inside are text or bytes; otherwise the only outcome is the `strict_map_key` error, never a limit derived from the input length. |
| `MsgPackRoundTrip.DecodeEncode` | `client/engine/msgpack/fallback.py:543-618` | In front of any other bytes and under any limits that fit the value, decoding an encoding gives the value back and consumes exactly the encoding, or fails at the first key that is not text. |
| `MsgPackRoundTrip.IntegerKeyIsRefused` | `client/engine/msgpack/fallback.py:584-587` | One input: a dict with the key 1 is packed and then refused. |
| `MsgPackRoundTrip.CoveredFits` | `client/engine/msgpack/fallback.py:320-331` | The limits derived from the input length (half of it for maps) admit everything inside an encoding of that length. |
| `MsgPackDecoded.NothingMayFollow` | `client/engine/msgpack/fallback.py:126-133` | An accepted byte string has no accepted extension: with anything behind it `unpackb` raises the error for extra bytes. |
| `MsgPackDecoded.NothingMayBeMissing` | `client/engine/msgpack/fallback.py:126-133` | No proper prefix of an accepted byte string is accepted. |
| `MsgPackDecoded.EncodingsStandAlone` | `client/engine/msgpack/fallback.py:110-134` | Both for encodings: nothing but the encoding itself is accepted among its extensions and its proper prefixes. |
| `MsgPackDecoded.DecodedIsSound` | `client/engine/msgpack/fallback.py:441-618` | Whatever is read from any bytes is well formed, has text or byte keys, no key twice, and keeps within all limits. |
| `MsgPackDecoded.LastOneWins` | `client/engine/msgpack/fallback.py:580-590` | A key that is repeated on the wire has the value of its last pair. |
| `MsgPackDecoded.PutAssigns` | `client/engine/msgpack/fallback.py:590` | Assigning to a key changes its value only, and adds it at the end when it is new. |
| `MsgPackDecoded.PackableExactly` | `client/engine/msgpack/fallback.py:755-858` | A value can be packed if and only if its numbers, codes and lengths fit their fields and its nesting, one level for a list and two for a dict, is at most 511. |
| `MsgPackDecoded.AnnouncedTooMuch` | `client/engine/msgpack/fallback.py:320-331` | A header that announces more than the whole input could hold is refused if and only if the length, doubled for maps, exceeds it. |
| `MsgPackDecoded.AnnouncedExtension` | `client/engine/msgpack/fallback.py:486-493` | The same for an extension. |
| `MsgPackDecoded.Refusals` | `client/engine/msgpack/fallback.py:110-134` | One input each for incomplete input, an unknown header and extra bytes. |
| `MsgPackWire.IntOnWire` | `client/engine/msgpack/fallback.py:777-797` | The format of every number: the fixed forms between -32 and 127, and otherwise the first byte that counts the doublings of the width, then the number. |
| `MsgPackWire.TextOnWire` | `client/engine/msgpack/fallback.py:970-980` | The format of every text. |
| `MsgPackWire.BytesOnWire` | `client/engine/msgpack/fallback.py:982-992` | The format of every byte string. |
| `MsgPackWire.ExtensionOnWire` | `client/engine/msgpack/fallback.py:823-847` | The format of every extension, fixed lengths included. |
| `MsgPackWire.CountsOnWire` | `client/engine/msgpack/fallback.py:946-963` | The headers of all lists and maps. |
| `MsgPackWire.ConstantsOnWire` | `client/engine/msgpack/fallback.py:768-775` | The bytes of nil, both booleans and doubles. |
| `MsgPackWire.TimestampOnWire` | `client/engine/msgpack/ext.py:117-136` | The three payloads of a timestamp, bit by bit, under the extension type -1. |
| `MsgPackWire.WidenKeepsValue` | `client/engine/msgpack/fallback.py:495-498` | Reading a single as a double keeps sign, value, infinity and NaN. |
| `MsgPackWire.Utf8Exactly` | `client/engine/msgpack/fallback.py:596-600` | The text check accepts exactly the encodings of sequences of Unicode scalar values. |
| `Bytes.DigitAt` | `client/engine/msgpack/fallback.py:778-797` | Byte i of a field holds the i-th digit, the most significant one first. |
| `MsgPackTimestamp.TimestampRoundTrip` | `client/engine/msgpack/ext.py:91-136` | All timestamps with 64-bit seconds come back from their payload, in all three widths. |
| `MsgPackTimestamp.TimestampShortest` | `client/engine/msgpack/ext.py:117-136` | `to_bytes` writes a shortest payload among all that read back as the same timestamp. |
| `Bytes.UnsignedRoundTrip` | `client/engine/msgpack/fallback.py:778-797` | Big-endian unsigned numbers read back, for every width that holds them. |
| `Bytes.SignedRoundTrip` | `client/engine/msgpack/fallback.py:780-797` | Big-endian two's-complement numbers read back, for every width that holds them. |
| `MsgPackShortest.ShortestForm` | `client/engine/msgpack/fallback.py:777-854` | For every packable value with text keys: its encoding is no longer than any byte string that `unpackb` reads as it (over-wide headers, repeated map keys and long timestamps included) if and only if no double inside is a widened single. |
| `MsgPackShortest.CompactReadsBack` | `client/engine/msgpack/fallback.py:495-501` | Writing those doubles with the single-precision header instead gives bytes that read back as the same value and reach the least length of all. |
| `MsgPackShortest.DecodeLeast` | `client/engine/msgpack/fallback.py:441-618` | For a prefix of a stream: a decoded value takes at least its least length, which is that of its encoding with five bytes for every widened single. |
| `MsgPackShortest.SinglesAreNotShortest` | `client/engine/msgpack/fallback.py:822-825` | One input: a single-precision zero is read and packed again in nine bytes instead of five. |
| `MsgPackPrefix.DecodeExtends` | `client/engine/msgpack/fallback.py:407-416` | A decode that completes or fails does the same when more bytes follow. |
| `MsgPackPrefix.ProperPrefixIsIncomplete` | `client/engine/msgpack/fallback.py:407-416` | Every proper prefix of the bytes of one value runs out of data and raises no other error. |
| `MsgPackPrefix.SkipExtends` | `client/engine/msgpack/fallback.py:555-560` | A skip that completes or fails does the same when more bytes follow. |
| `MsgPackPrefix.SkipAgrees` | `client/engine/msgpack/fallback.py:636-638` | `skip` ends at the offset of `unpack`, runs out of data where `unpack` does and raises the same header errors. |
| `MsgPackStream.PackedStream` | `client/engine/msgpack/fallback.py:620-634` | A stream of packed values followed by any proper prefix of another one holds exactly those values and ends in front of the incomplete tail. |
| `MsgPackStream.ErrorStays` | `client/engine/msgpack/fallback.py:407-416` | What a stream holds up to its first error does not depend on what follows. |
| `MsgPackStream.TraceExtends` | `client/engine/msgpack/fallback.py:620-646` | Calls that completed on a part of a stream also complete, in the same way, on the whole of it. |
| `MsgPackStream.TraceDrains` | `client/engine/msgpack/fallback.py:620-634` | The values yielded so far, followed by what the rest of the stream holds, are what the whole stream holds. |
| `MsgPackUnpacker.ReadChunks` | `client/engine/msgpack/fallback.py:368-381` | Chunking does not matter: feeding any cut of a stream with iteration in between yields the values of the uncut stream, stops at the same error, and `tell` is the number of bytes of those values. It stops early if and only if some chunk exceeds the buffer together with the bytes unread before it, with what the chunks before the first such one hold. |
| `MsgPackUnpacker.UnpackBytes` | `client/engine/msgpack/fallback.py:110-134` | `unpackb` through the streaming class is the value-level decoder, with the error for incomplete input and for extra bytes; with `NothingMayFollow` no input is accepted together with an extension of it. |
| `MsgPackUnpacker.Unpacker.Feed` | `client/engine/msgpack/fallback.py:368-381` | Refuses exactly what exceeds the buffer size; otherwise appends, and cuts only what lies in front of the checkpoint. |
| `MsgPackUnpacker.Unpacker.Consume` | `client/engine/msgpack/fallback.py:383-386` | Moves the checkpoint to the cursor and counts the bytes between into the stream offset. |
| `MsgPackUnpacker.Unpacker.Reserve` | `client/engine/msgpack/fallback.py:407-416` | Succeeds exactly when the bytes are there; otherwise the cursor is back at the checkpoint. |
| `MsgPackUnpacker.Unpacker.Read` | `client/engine/msgpack/fallback.py:399-405` | Returns the next bytes and moves behind them, or rolls back. |
| `MsgPackUnpacker.Unpacker.ReadHeader` | `client/engine/msgpack/fallback.py:441-541` | The branches over all header bytes agree with the format table: same header, same error, same cursor, or a rollback. |
| `MsgPackUnpacker.Unpacker.UnpackValue` | `client/engine/msgpack/fallback.py:543-618` | The recursive reader moves the cursor as the value-level decoder says, or back to the checkpoint when data runs out. |
| `MsgPackUnpacker.Unpacker.SkipValue` | `client/engine/msgpack/fallback.py:555-580` | The same for the skipping reader. |
| `MsgPackUnpacker.Unpacker.Next` | `client/engine/msgpack/fallback.py:623-634` | Yields one value and consumes it; an incomplete tail changes neither the offset nor the fed bytes; the invariant that all completed calls partition the consumed bytes is kept. |
| `MsgPackUnpacker.Unpacker.SkipNext` | `client/engine/msgpack/fallback.py:636-638` | The same for `skip`. |
| `MsgPackUnpacker.Unpacker.Tell` | `client/engine/msgpack/fallback.py:658-659` | The offset is the total length of everything that was yielded or skipped. |
| `MsgPackPacker.Packer.PackInt` | `client/engine/msgpack/fallback.py:777-802` | Writes the format of the number, or raises outside 64 bits and writes nothing. |
| `MsgPackPacker.Packer.PackExt` | `client/engine/msgpack/fallback.py:823-847` | Writes the extension formats, fixed sizes first. |
| `MsgPackPacker.Packer.PackValue` | `client/engine/msgpack/fallback.py:755-858` | The recursive writer appends exactly the encoding when the value passes all checks (lists cost one level of nesting, maps two), and otherwise raises the first error. |
| `MsgPackPacker.Packer.Pack` | `client/engine/msgpack/fallback.py:881-890` | All of the encoding or nothing: after an error the buffer is that of a fresh packer. |
| `GridAoi.Grid.ComputeVisible` | `crates/aoi/src/lib.rs:65-83` | The union over the buckets in the cell radius is the set of other entities whose cell is in range. |
| `GridAoi.Grid.RecomputeAndDiff` | `crates/aoi/src/lib.rs:86-96` | One observer sees exactly its range afterwards, and the new events are exactly the difference: replayed over the old visibility they give the new one, and none is redundant. |
| `GridAoi.Grid.Insert` | `crates/aoi/src/lib.rs:102-117` | Keeps the invariant (buckets exact, every position on the square of its cell, nobody seen out of range, settled targets seen); who sees whom afterwards is stated entity by entity; the events explain the change. |
| `GridAoi.Grid.Update` | `crates/aoi/src/lib.rs:119-150` | The same for a move, with the set of observers that are recomputed. |
| `GridAoi.Grid.Remove` | `crates/aoi/src/lib.rs:152-169` | The same for a removal: a Leave for exactly everyone who saw the entity, and its own view dropped without events. |
| `GridAoi.Grid.Observers` | `crates/aoi/src/lib.rs:171-175` | Exactly those who see the target. |
| `GridAoi.SettledIsExact` | `crates/aoi/src/lib.rs:65-96` | With one common cell radius, once everybody was updated at least once since insertion, `last_visible` is exactly the cell range of every observer. |
| `GridAoi.RangeAndDistance` | `crates/aoi/src/lib.rs:60-83` | In every valid grid, in terms of positions only: whoever lies within the radius on both ground axes is in range, and whoever is in range lies less than `(reach + 1) * cell_size` away on both, and less than two cells outside the radius. |
| `GridAoi.SeeingAndDistance` | `crates/aoi/src/lib.rs:60-96` | Nobody is seen from further away than that; and an entity that was updated is seen by everyone who has it within the radius and reaches no further than it. |
| `GridAoi.ArrivalSees` | `crates/aoi/src/lib.rs:102-150` | A newcomer, and whoever has just moved, sees everyone within its radius at the new place, and nobody from further away than two cells outside. |
| `GridAoi.ExactAfterInsert` | `crates/aoi/src/lib.rs:102-117` | An exact grid stays exact after an insertion if and only if no resident of another cell has the new cell within its radius. |
| `GridAoi.ExactAfterUpdate` | `crates/aoi/src/lib.rs:119-150` | An exact grid stays exact after a move if and only if everyone who then has the entity in range was linked to it before or is in its own range; always when nobody reaches further than it. |
| `GridAoi.ExactAfterRemove` | `crates/aoi/src/lib.rs:152-169` | An exact grid stays exact after a removal. |
| `GridAoi.NewNeighbourIsMissed` | `crates/aoi/src/lib.rs:110-116` | One input: a newcomer in the next cell is in range of a resident that does not see it. |
| `GridAoi.ReplayConcat` | `crates/aoi/src/lib.rs:177-179` | Replaying two batches of events is replaying them one after the other. |
| `GridAoi.NewsConcat` | `crates/aoi/src/lib.rs:90-95` | Batches without redundant events stay so when put together. |
| `GridAoi.ExplainsConcat` | `crates/aoi/src/lib.rs:90-95` | Events that lead from one visibility to a second and on to a third lead from the first to the third. |
| `AoiManager.RunAll` | `server/engine/aoi.py:101-191` | In every run of joining, moving, leaving and ticks both layers stay valid: the caches are transposes of each other, and replaying the pending events over the visible cache gives the grid's visibility for all living ids; right after a tick all three are equal. Every event that is delivered is a change. |
| `AoiManager.Manager.DoInsert` | `server/engine/aoi.py:101-108` | A living name is moved; a new one gets an id never used before; caches untouched; two-layer agreement kept. |
| `AoiManager.Manager.UpdatePosition` | `server/engine/aoi.py:87-91` | Unknown names are ignored; agreement kept. |
| `AoiManager.Manager.DoRemove` | `server/engine/aoi.py:110-121` | All pairs of the name, and no others, leave both caches at once; agreement kept for everyone who stays. |
| `AoiManager.Manager.Tick` | `server/engine/aoi.py:141-191` | Consumes all events, drops those about removed ids, returns the others under their names in order. Whoever applies the returned list to the old visible cache has the new one, no entry is redundant, and both caches are the visibility of the grid. |
| `AoiManager.NoticesTell` | `server/engine/aoi.py:141-191` | The translation behind this: it tells of living names what the events do, and of no other name. |
| `AoiManager.Manager.ObserversOf` | `server/engine/aoi.py:126-127` | The mirrored cache answers what the visible cache would. |
| `AoiManager.Manager.VisibleOf` | `server/engine/aoi.py:129-130` | Exactly the visible targets. |
| `AoiManager.AgreeAfterChange` | `server/engine/aoi.py:141-180` | Events that explain a change of the grid keep the agreement of the layers. |
| `AoiManager.NewsAfterChange` | `server/engine/aoi.py:141-180` | Pending events and those of the next change tell the cache of real changes only. |
| `AoiManager.AgreeWithNewcomer` | `server/engine/aoi.py:101-108` | A name that was removed and joins again starts without any old pair. |
| `AoiManager.AgreeWithoutLeaver` | `server/engine/aoi.py:110-121` | For everyone who stays a removal changes neither layer, although its Leave events are never delivered. |
| `PrefabCycles.CheckPrefabCycle` | `crates/asset/src/dependency_scanner.rs:248-273` | Terminates; returns an empty list if and only if the graph of prefab references is acyclic; everything it returns is a closed path of such references; and every cycle of the graph runs through the start of a returned one. |
| `PrefabCycles.DfsCycleDetect` | `crates/asset/src/dependency_scanner.rs:276-312` | Keeps the stack a path and the finished prefabs in an order in which every reference leads back or to the start of a reported cycle. |
| `PrefabCycles.PathStaysInFront` | `crates/asset/src/dependency_scanner.rs:276-312` | A path that avoids the starts of the reported cycles never leaves a front part of the finishing order. |
| `PrefabCycles.CycleThroughFinished` | `crates/asset/src/dependency_scanner.rs:276-312` | A cycle through a finished prefab runs through the start of a reported one. |
| `AssetBundle.CollectDependencies` | `crates/asset/src/database.rs:331-349` | Terminates on cyclic graphs; visits exactly what is reachable and lists each existing asset once. |
| `AssetBundle.DependencyChain` | `crates/asset/src/database.rs:324-329` | Exactly the existing assets reachable from the root, each once, the root first. |
| `AssetBundle.Build` | `crates/asset/src/bundle.rs:109-170` | Refused for an empty name or the first missing root; otherwise exactly the union of the roots' chains, without repeats, each with its path, kind and size, and the sum of the members' sizes. |
| `AssetBundle.BundleIsClosed` | `crates/asset/src/bundle.rs:119-134` | With a member a bundle contains every existing asset that the member depends on. |
| `AssetBundle.SizesAddUp` | `crates/asset/src/bundle.rs:140-174` | The total of a bundle is the sum over its members, however it is cut. |
| `TextureCooker.DownsampleBox` | `crates/asset/src/texture_cooker.rs:195-226` | Every channel of the result is the rounded mean of the four clamped source pixels. |
| `TextureCooker.DownsampleNearest` | `crates/asset/src/texture_cooker.rs:229-249` | Every pixel of the result is the clamped source pixel at twice its coordinates. |
| `TextureCooker.GenerateMipmaps` | `crates/asset/src/texture_cooker.rs:173-192` | The chain starts with the image, every level is sampled from the one before, it ends when no side exceeds one and has exactly `mip_level_count` levels; empty sides included, unless the other one would have to be halved, where the source stops with an error. |
| `TextureCooker.SideClosedForm` | `crates/asset/src/texture_cooker.rs:182-189` | The side of level k is `max(1, n / 2^k)`. |
| `TextureCooker.LeadingZerosCount` | `crates/asset/src/texture_cooker.rs:150-153` | Counting leading zeros gives the bit length, on which the number of levels rests. |
| `TextureCooker.AccumulatedRounding` | `crates/asset/src/texture_cooker.rs:195-226` | For quality >= 50, at every level, also where one side has long been a single pixel: `2 * abs(A * v - S) <= k * A` for every channel v of level k, with A the area and S the sum of the base channel over the block under the pixel. The block lies inside the base image. |
| `TextureCooker.UnderHalves` | `crates/asset/src/texture_cooker.rs:205-221` | The sum over a block is the sum over its two halves, whichever way it is cut. |
| `TextureCooker.BoxOfParents` | `crates/asset/src/texture_cooker.rs:205-221` | Every channel is a quarter of the sum of its four parents, rounded to nearest with halves up; beside a side of one pixel the parents coincide in pairs. |
| `TextureCooker.HalvingsClosedForm` | `crates/asset/src/texture_cooker.rs:182-189` | A block doubles its side `min(k, bit length - 1)` times. |
| `TextureCooker.ChainStaysInRange` | `crates/asset/src/texture_cooker.rs:173-249` | At every level every channel stays within the minimum and maximum of the base image. |
| `TextureCooker.NearestIsBasePixel` | `crates/asset/src/texture_cooker.rs:229-249` | Under nearest sampling pixel (x, y) of level k is base pixel (x * 2^k, y * 2^k). |
| `TextureCooker.EncodeMipChain` | `crates/asset/src/texture_cooker.rs:252-293` | The offsets are prefix sums and slice every encoded level back out; the sizes are those of the levels. |
| `TextureCooker.DropAlphaKeepsColours` | `crates/asset/src/texture_cooker.rs:277-282` | Dropping alpha keeps the three colour bytes of every pixel in place. |
| `TextureCooker.LevelsReadBack` | `crates/asset/src/texture_cooker.rs:269-293` | From an offset to the next one the three formats with alpha hold the level itself, and the one without holds exactly the three colour bytes of every pixel. |
| `TextureCooker.CookFull` | `crates/asset/src/texture_cooker.rs:103-134` | The output is laid out level by level over a chain that starts with exactly `width * height * 4` bytes of the input. |
| `MeshCooker.OptimizeIndexOrder` | `crates/asset/src/mesh_cooker.rs:232-302` | Terminates; emits every whole triangle exactly once with its corners in order. The first triangle comes first; then always the first one with the most cache hits among those left, and without any hit the next one left behind the last, or the first of all. |
| `MeshCooker.ReorderIsUnique` | `crates/asset/src/mesh_cooker.rs:232-302` | This description leaves no choice: the result follows from the indices. |
| `MeshCooker.CacheIsLastMisses` | `crates/asset/src/mesh_cooker.rs:262-272` | The cache holds the last sixteen misses of the corners emitted so far, oldest first. |
| `MeshCooker.ScoreCounts` | `crates/asset/src/mesh_cooker.rs:283-289` | The score of a triangle is its number of corners in the cache. |
| `MeshCooker.UpdateCache` | `crates/asset/src/mesh_cooker.rs:262-272` | The FIFO update for the three corners of a triangle. |
| `MeshCooker.CacheBounded` | `crates/asset/src/mesh_cooker.rs:262-272` | The cache holds at most 16 entries, all different. |
| `MeshCooker.GreedyAppend` | `crates/asset/src/mesh_cooker.rs:274-299` | Taking the triangle that the search ends at extends the order. |
| `MeshCooker.SelectionBound` | `crates/asset/src/mesh_cooker.rs:240-260` | A selection without repeats is never longer than the number of triangles, and as long only if complete. |
| `MeshWeld.DeduplicateVertices` | `crates/asset/src/mesh_cooker.rs:191-226` | The hash-map loop computes the reference weld, which searches for the first vertex with the same position. |
| `MeshWeld.WeldedAreDistinct` | `crates/asset/src/mesh_cooker.rs:191-226` | Welded positions are pairwise distinct. |
| `MeshWeld.WeldKeepsPositions` | `crates/asset/src/mesh_cooker.rs:191-226` | The positions read through the indices are those of the input, for all indices that are in range. |
| `MeshWeld.WeldedInOrderOfUse` | `crates/asset/src/mesh_cooker.rs:191-226` | Every welded vertex is, byte for byte, the input vertex of the corner that used it first, and the vertices stand in the order of these first uses. |
| `MeshWeld.KeptConcat` | `crates/asset/src/mesh_cooker.rs:200-205` | The indices that are used are the given ones without those out of range, in their order. |
| `MeshWeld.WeldTwice` | `crates/asset/src/mesh_cooker.rs:191-226` | Welding a welded mesh again changes nothing. |
| `MeshWeld.WriteNormals` | `crates/asset/src/mesh_cooker.rs:357-377` | Writes every normal that fits at its slot and no other byte; a short stride skips it. |
| `MeshWeld.NormalsKeepPositions` | `crates/asset/src/mesh_cooker.rs:357-377` | Writing normals changes no position. |
| `MeshWeld.ReorderKeepsGeometry` | `crates/asset/src/mesh_cooker.rs:232-302` | Reordering keeps the multiset of position triangles, dangling corners included. |
| `MeshWeld.PickIsPermutation` | `crates/asset/src/mesh_cooker.rs:240-302` | Picking the elements of a sequence in the order of a permutation keeps its multiset. |
| `MeshWeld.Cook` | `crates/asset/src/mesh_cooker.rs:130-156` | Pins every stage: with welding the buffer consists of pairwise distinct positions, each vertex taken from its first use, every corner where it was; with reordering the indices are the greedy order of those before it; with normals the computed ones stand in their slots and every other byte is as before. For the result: no shared positions after welding, no unused vertex unless an unfinished triangle is dropped, the multiset of position triangles of the used indices, in-range indices and their number. |
| `EditorCommands.ExecuteCancels` | `crates/editor/src/command_group.rs:74-114` | Groups are atomic, nested to any depth: a failing execution leaves the document as it was and nothing inside marked as executed, although members that never ran are asked to undo; a successful one is undone completely and can be repeated to the same result. |
| `EditorCommands.ExecuteAchieves` | `crates/editor/src/command_group.rs:74-86` | For any command in any state and any document: it succeeds if and only if every instantiation inside creates something, and then every key holds what its last change inside says, in execution order and to any depth, and every other key is as before. |
| `EditorCommands.MembersAchieve` | `crates/editor/src/command_group.rs:75-83` | The same for a list of members. |
| `EditorCommands.SpawnRewrites` | `crates/editor/src/commands.rs:272-279` | An instantiation sets its entities, one after the other. |
| `EditorCommands.MembersCancel` | `crates/editor/src/command_group.rs:75-100` | The same for a list of members: undone backwards when all succeeded, rolled back when one failed. |
| `EditorCommands.LeafCancels` | `crates/editor/src/commands.rs:91-109` | Every leaf undoes what it did when it recorded the state in front of it, and does nothing when not executed. |
| `EditorCommands.FreshRollBack` | `crates/editor/src/command_group.rs:109-114` | Rolling back members that never ran changes neither them nor the document. |
| `EditorCommands.RemovingSpawned` | `crates/editor/src/commands.rs:272-292` | Removing the instantiated entities restores the document. |
| `EditorCommands.ExecuteGroup` | `crates/editor/src/command_group.rs:75-86` | The loop with its early exit and rollback computes the recursive definition. |
| `EditorCommands.UndoGroup` | `crates/editor/src/command_group.rs:88-100` | The backward loop computes the recursive definition, with its guard and its early exit. |
| `EditorCommands.RollBackGroup` | `crates/editor/src/command_group.rs:109-114` | The backward loop asks every member and ignores failures. |
| `CommandHistory.History.ExecuteCommand` | `crates/editor/src/commands.rs:478-492` | New stacks and document; a failing command leaves both stacks alone. |
| `CommandHistory.History.UndoLast` | `crates/editor/src/commands.rs:497-509` | New stacks and document; a failing undo goes back onto its stack. |
| `CommandHistory.History.RedoLast` | `crates/editor/src/commands.rs:514-525` | New stacks and document; a failing redo goes back onto its stack. |
| `CommandHistory.ExecuteStaysOnTimeline` | `crates/editor/src/commands.rs:478-492` | Executing keeps the timeline; an undo afterwards restores the document, and the past without its oldest entry if it was full. |
| `CommandHistory.ExecutionShows` | `crates/editor/src/commands.rs:478-492` | After a successful execution the document shows all its changes, the future is empty, the command is on top of the past, and only the oldest entry of a full past is gone; a failing one leaves both stacks. |
| `CommandHistory.RedoShows` | `crates/editor/src/commands.rs:514-525` | A redo brings back every change of the command it repeats. |
| `CommandHistory.PastExplainsDocument` | `crates/editor/src/commands.rs:478-525` | At any point of the timeline and for every k: the document is what the changes of the last k commands of the past, in order, make of the document that k undos lead to. |
| `CommandHistory.NoEntryIsLost` | `crates/editor/src/commands.rs:497-525` | In any state an undo or a redo moves one entry if it succeeds and puts it back if not. |
| `CommandHistory.UndoThenRedo` | `crates/editor/src/commands.rs:497-525` | On the timeline an undo succeeds and a redo restores the whole state. |
| `CommandHistory.RedoThenUndo` | `crates/editor/src/commands.rs:497-525` | On the timeline a redo succeeds and an undo restores the whole state. |
| `CommandHistory.UndosThenRedos` | `crates/editor/src/commands.rs:497-525` | k undos and then k redos restore the document and both stacks. |
| `CommandHistory.RunStaysOnTimeline` | `crates/editor/src/commands.rs:478-525` | Every run of execute, undo and redo stays on one timeline, and `undo_depth + redo_depth <= max(1, max_depth)` always. |
| `CommandHistory.SessionTimeline` | `crates/editor/src/commands.rs:466-525` | Both together for whole sessions that start with an empty history. |
| `Animation.AnimationPlayer.Advance` | `crates/avatar/src/animation.rs:161-177` | New fields in all cases: stopped, no duration, looping, past the end. |
| `Animation.StepMeets` | `crates/avatar/src/animation.rs:161-177` | One step in every case, in terms of `time + dt * speed`: a looping clock ends in [0, D) and differs by whole laps; otherwise it ends at most at D and stops if and only if it would get past it; without a duration it is zero; stopped, nothing changes. |
| `Animation.TravelIsElapsed` | `crates/avatar/src/animation.rs:167` | Over a run the clock moves by the speed times the sum of the steps. |
| `Animation.CheckMarkersCrossed` | `crates/avatar/src/animation.rs:185-213` | The two loops report exactly the markers passed, in order. |
| `Animation.PassedOnce` | `crates/avatar/src/animation.rs:185-213` | A step reports a marker once if it passes it, and not at all otherwise. |
| `Animation.Scene.UpdateAnimation` | `crates/scene/src/scene.rs:242-282` | Advances the player, reports a loop when the time went back and the end while the player says so, and records the markers between the times before and after. |
| `Animation.LoopsReported` | `crates/scene/src/scene.rs:247-254` | Closed form over any run of a looping player: loops reported plus the whole laps inside single steps equal `floor(Tn / D) - floor(T0 / D)`, where `Tn = T0 + speed * sum(dt)`. |
| `Animation.EndsReported` | `crates/scene/src/scene.rs:255-262` | The end of a clip is reported by the step that stops the player and again by every later one; exactly once if and only if the run stops there. |
| `Animation.EndTwice` | `crates/scene/src/scene.rs:255-262` | One input: a clip played once, updated once more, is reported to end twice. |
| `Animation.AnyStep` | `crates/avatar/src/animation.rs:161-213` | One looping step of any size and direction reports a marker as often as the clock is at it, less the whole laps of the step. |
| `Animation.MarkerFirings` | `crates/avatar/src/animation.rs:161-213` | Closed form over any run of a looping player: firings of a marker m in [0, D] plus the whole laps inside single steps equal `floor((Tn - m) / D) - floor((T0 - m) / D)`, where `Tn = T0 + speed * sum(dt)`. |
| `Animation.NoMarkerIsLost` | `crates/avatar/src/animation.rs:161-213` | A forward run never fires a marker too often, and fires it exactly as often as due if and only if every step is shorter than the clip. |
| `Animation.TwoLapsAtOnce` | `crates/avatar/src/animation.rs:161-213` | One input: a step of two and a half laps is due three firings and reports one. |
| `Animation.FiresOnce` | `crates/avatar/src/animation.rs:172-176` | A forward run of a clip that plays once fires a marker exactly once if the clock gets to it, and never again after the end. |
| `BlendTrees.SharesAddUp` | `crates/avatar/src/animation_graph.rs:39-71` | The shares of a tree with entries lie in [0, 1], add up to one and name clips of the tree; an empty tree has none. |
| `BlendTrees.BlendMeetsValue` | `crates/avatar/src/animation_graph.rs:51-69` | Inside the range, whatever the order of the thresholds, the first two neighbours around the value are mixed so that their thresholds average to it: the fallback behind the loop is never reached. |
| `BlendTrees.EndsAreHeld` | `crates/avatar/src/animation_graph.rs:43-55` | Outside the range the nearer end is played alone; a parameter that is missing or no number reads as zero. |
| `ClipMerge.MergeClips` | `crates/avatar/src/animation_graph.rs:384-400` | One entry for each clip with weight: its whole weight and its weighted mean time. |
| `ClipMerge.MergeKeepsTotal` | `crates/avatar/src/animation_graph.rs:384-400` | Merging keeps the total weight. |
| `ClipMerge.MergedTimeIsBetween` | `crates/avatar/src/animation_graph.rs:384-400` | A merged time lies between the times of two parts of its clip that have weight. |
| `AnimationGraph.AnimationStateMachine.ResolveStateId` | `crates/avatar/src/animation_graph.rs:178-189` | A known name keeps its id; a new one extends all tables by one row. |
| `AnimationGraph.AnimationStateMachine.AddState` | `crates/avatar/src/animation_graph.rs:191-202` | Registers the state with one fresh player for each clip of its tree; tables stay aligned. |
| `AnimationGraph.AnimationStateMachine.AddTransition` | `crates/avatar/src/animation_graph.rs:204-212` | Adds a transition between resolved ids; tables stay aligned. |
| `AnimationGraph.WithStateKeeps` | `crates/avatar/src/animation_graph.rs:191-202` | Registering keeps all ids in range and every other state as it was; the state has exactly one fresh player for each clip. |
| `AnimationGraph.WithTransitionKeeps` | `crates/avatar/src/animation_graph.rs:204-212` | Adding a transition keeps all ids in range. |
| `AnimationGraph.WithTransitionAdds` | `crates/avatar/src/animation_graph.rs:204-212` | The new transition comes last in the row of the state it leaves; all other rows and all ids are as before. |
| `AnimationFlow.NumberConditions` | `crates/avatar/src/animation_graph.rs:402-425` | Conditions on a number are strict outside and closed inside: exactly one of less, in range and greater holds. |
| `AnimationFlow.OtherConditions` | `crates/avatar/src/animation_graph.rs:402-425` | A flag answers to one condition, a trigger to one, a parameter that is not set to none. |
| `AnimationFlow.TransitionStarts` | `crates/avatar/src/animation_graph.rs:279-292` | A transition starts if and only if none is running and some condition holds; it is the first such one, its trigger no longer holds, and no other parameter changes. |
| `AnimationFlow.TransitionTakes` | `crates/avatar/src/animation_graph.rs:318-365` | Over a run of updates the target becomes the current state with exactly that update whose seconds fill the duration, or the least one; before that the progress is the share of the seconds passed. |
| `AnimationFlow.DriveMeets` | `crates/avatar/src/animation_graph.rs:258-276` | Driving a state takes each of its players on by `dt * state speed * player speed`, up to whole laps, and no other player. |
| `AnimationFlow.UpdateDrives` | `crates/avatar/src/animation_graph.rs:250-315` | An update drives the current state and the target, a transition to itself twice, and no other state. |
| `AnimationFlow.ClipIsMixed` | `crates/avatar/src/animation_graph.rs:318-400` | A clip is returned if and only if the two states give it some weight; then with the sum of `(1 - f) * share` in the current state and `f * share` in the target, and at the average of both times by these weights. |
| `AnimationFlow.FadeFollowsProgress` | `crates/avatar/src/animation_graph.rs:318-321` | The share f of the target is the progress, kept between zero and one. |
| `AnimationGraph.AdvancePlayers` | `crates/avatar/src/animation_graph.rs:258-276` | Advances every player of a state once, in any order; notes the times; tells of a loop for exactly the clips whose time is before the one last noted in any state; never tells of an end, since no player of the machine ever stops. |
| `AnimationGraph.AnimationStateMachine.DriveState` | `crates/avatar/src/animation_graph.rs:258-276` | The same on the tables of the machine, for a registered state. |
| `AnimationGraph.AnimationStateMachine.ChooseTransition` | `crates/avatar/src/animation_graph.rs:279-292` | Starts the first transition whose condition holds and uses up its trigger. |
| `AnimationGraph.AnimationStateMachine.Update` | `crates/avatar/src/animation_graph.rs:250-400` | The whole new state, what is merged, and the events: the loops of the current state, those of the target, and a change of state exactly when its transition was running before this update. |
| `AnimationGraph.UnreportedSwitch` | `crates/avatar/src/animation_graph.rs:376-381` | One input: a transition that takes no time changes the state and nothing tells of it. |
| `AnimationGraph.WeightsAddUp` | `crates/avatar/src/animation_graph.rs:279-400` | From every well-formed machine an update returns positive weights, and they add up to one if and only if the current state, unless it will be faded out, and the target, if it will be faded in, are registered with trees that are not empty. |
| `AnimationGraph.NothingToPlay` | `crates/avatar/src/animation_graph.rs:151-176` | One input: a machine whose initial state was never registered returns nothing. |
| `AnimationGraph.TimesAreBlended` | `crates/avatar/src/animation_graph.rs:313-400` | A merged time lies between the times of two players of its clip, in states that have a share. |
| `AnimationGraph.EveryUpdateAddsUp` | `crates/avatar/src/animation_graph.rs:191-400` | From a machine whose states all have something to play, through any run of registrations, transitions, parameters and updates, every update returns weights that add up to one. |
| `PlayerManager.Manager.AddPlayer` | `server/engine/player.py:242-256` | The new instance is registered and listed under its connection; another instance of the entity leaves the index. |
| `PlayerManager.Manager.DetachPlayerConn` | `server/engine/player.py:258-265` | Removes one entry, and the list when it becomes empty. |
| `PlayerManager.Manager.UpdatePlayerConn` | `server/engine/player.py:272-297` | Everyone on the connection of the entity moves to the new one, in the index and in their own fields. |
| `PlayerManager.Manager.DelPlayer` | `server/engine/player.py:318-324` | With an instance, deletes only if that very one is registered; without one, deletes whichever is. |
| `PlayerManager.Manager.PlayerOffline` | `server/engine/player.py:330-341` | The sweep over a copy of the list computes the recursive definition: new registry, and the handler calls in order. |
| `PlayerManager.AddKeepsPartition` | `server/engine/player.py:242-265` | A login keeps the index a partition of the registered players by connection and leaves all other entities alone. |
| `PlayerManager.TransferKeepsPartition` | `server/engine/player.py:272-297` | A transfer keeps the partition if and only if the new connection is the old one or has no list. |
| `PlayerManager.TransferMoves` | `server/engine/player.py:272-297` | A transfer moves exactly the registered players on the connection: new connection and gate, the gate known from now on and the known ones kept; the whole list goes along, and every other session and list is as before. |
| `PlayerManager.OverwrittenIsStranded` | `server/engine/player.py:295-297` | Otherwise the players that were on the new connection stay registered there, unlisted, and its end does not remove them. |
| `PlayerManager.OfflineIsExact` | `server/engine/player.py:330-341` | The end of a connection reports and removes exactly the registered players on it, each once, and keeps the partition. |
| `PlayerManager.SweptMembers` | `server/engine/player.py:330-340` | In any state the sweep removes exactly the listed instances that are still registered and still on the connection. |
| `PlayerManager.RunKeepsPartition` | `server/engine/player.py:242-341` | Every run of logins, transfers to free connections and disconnects keeps the partition. |
| `PlayerManager.EverySession` | `server/engine/player.py:242-341` | From an empty registry: a player is listed under a connection if and only if it is registered and on it. |
| `PlayerManager.StaysRegistered` | `server/engine/player.py:242-341` | In any run, orderly or not, a registered player only goes by a newer instance of its entity or by the end of the connection it is on at that time. |
| `PlayerManager.LateDisconnect` | `server/engine/player.py:330-341` | The late end of the connection a player was transferred away from, or an older instance had, does not remove it. |

## Left out

- MessagePack options: the defaults are modelled (`use_bin_type`, `strict_map_key`, `raw=False`, lists, plain timestamps); hooks, `default`, `datetime`, `use_single_float`, `strict_types`, `read_bytes`, the header-only readers and `pack_map_pairs` would add branches but no new kind of property.
- MessagePack reading from a file object: only the feeding mode is modelled, and the interpreter's own recursion limit is not.
- MessagePack text and floats: text is its UTF-8 bytes (lone surrogates do not occur) and a double is its eight bytes; widening a single is written out, except that quieting of signalling NaNs is not modelled. Tuples are arrays.
- MsgPackUnpacker.Unpacker.Next: after an error other than missing data the cursor stays inside the value, as in the source, and nothing more is promised about later calls; `ReadChunks` describes streams up to their first error.
- MsgPackUnpacker.ReadChunks: the loop ends at a chunk that does not fit. A refused `Feed` changes nothing, so trying the same chunk again is refused again; cutting it into smaller ones is not described.
- AOI positions and radii are reals, cell coordinates unbounded integers: rounding and saturation of single-precision casts are not modelled. The order in hash sets is arbitrary, and the inner loop over a bucket is a union.
- AOI callbacks, entity and player registries and the `group.remove_*` calls inside `tick`: they do not touch the modelled state. The binding between the Python and the Rust layer is plain delegation.
- Asset scanning, `.meta` files, copying, JSON, clocks and the overflow of 64-bit sums; a database files every entry under its own uuid. The mutable references of the recursive searches are values that go in and come out.
- Texture decoding and the overflow of 32-bit sizes (`dst_w * dst_h * 4`).
- Mesh cooking: a `weld` flag stands for `weld_tolerance >= 0`. The values of normals are a parameter; tangents, bounding volumes and the cast of indices to 32 bits are not modelled.
- Editor callbacks act on a document of keyed contents. `Edit` stands for the transform, delete, create, reparent, body kind and rename commands, which have the same shape. Descriptions, `clear`, `merge_last`, `pop_last_undo`, `is_dirty` and `execute_group` (which runs the group twice) are left out.
- Animation times, speeds and weights are reals: rounding, in particular a remainder that rounds up to the duration, and NaN are not modelled. Sampling of clips is left out.
- State machine: the inlined parts of an update are methods of their own, players are held by value, and the order of hash maps is arbitrary, so the order of the loops told by one state and of the merged entries is too.
- Player sessions: remote calls, timers, migration and the transfer callback are left out; the offline handler is a list of its calls.
- PlayerManager.Manager.AddPlayer: called by the constructor of a player in the source, and by the owner of a new instance here.
