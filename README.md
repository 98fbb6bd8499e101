# ParticlePacketKickPatch in Dafny

A Dafny model of the Fabric server mod `noviaversionkick`. The mod keeps players
who connect through a ViaVersion-style protocol translator from being kicked by
modern particle packets. Three parts are modelled, each in its own module:

- **BrandTracker** (`brand_tracker.dfy`) models `ViaBrandTracker`. It is a map from
  client connection to the client brand the connection announced. The map has the
  set/remove rules of `setBrand`. Its one query, `shouldUseLegacyParticles`,
  trims and lower-cases the stored brand and then looks for "via" anywhere in it.
- **ModList** (`mod_list.dfy`, with its properties in `mod_list_properties.dfy`)
  models `parseModListPayload`, the parser for the Fabric mod-list login
  payload. It makes three attempts, all from the marked reader index and all
  appending to one shared list:
  - a versioned list;
  - a plain counted list;
  - an unbounded, deduplicated list.

  The module also models the login receiver that turns the parse result into
  the list or `null`. The parser is an imperative method over a `PacketBuf` class,
  with a reader index and a mark. Each of its methods is proved equal to a pure
  function, and the parser's properties are proved about those functions.
- **ParticlePacket** (`particle_packet.dfy`) models `ParticleS2CPacketMixin`. This
  is the hook at the head of `ParticleS2CPacket.write` that writes the legacy
  layout for legacy connections. It covers:
  - the suppression of `falling_*` particles;
  - the field order;
  - the snapping of block-state particles onto the nearest block face.

  Output is a sequence of abstract tokens, one per buffer write call. Coordinates
  are exact reals.

Supporting modules:

- **Wrappers** provides `Option`, which stands for Java's `null`.
- **Text** models `String.trim`, ASCII `toLowerCase`, `startsWith` and `contains`.
- **Wire** models the `PacketByteBuf` readers the parser uses:
  - `readVarInt`: at most five 7-bit groups, read as a signed 32-bit int.
  - `readString(32767)`: a VarInt byte length, refused when above `3 * 32767`,
    when negative or when beyond the readable bytes, then one char per byte.

  These readers are stated as assumptions, because `PacketByteBuf` is not part
  of this model. A reader returns `None` where the real one throws.

Three behaviours of the code are easy to miss:

- **Legacy decision.** The decision is a substring test for "via" in the
  normalized client brand. No extension-list signal is involved, no decision is
  cached, and there is no prefix test.
- **Codec failure.** When `PACKET_CODEC.encode` fails, the exception leaves the
  `write` hook. This happens before anything is written and before the cancel.
  The code does not catch it or fall back to the default encoding.
- **Shared list.** The three parser attempts share one list. Ids appended by an
  attempt that later throws stay in the result (`SharedListKeepsPartialAttempt`).

## Model

| member | source | states |
|---|---|---|
| BrandTracker.BrandsAfterSet | src/main/java/org/bacon/noviaversionkick/network/ViaBrandTracker.java:20-29 | a null connection leaves the map as it is; a null brand removes the connection; any other brand becomes the connection's entry; every other connection keeps its entry |
| BrandTracker.ViaBrandTracker.constructor | src/main/java/org/bacon/noviaversionkick/network/ViaBrandTracker.java:15 | a new tracker holds no brands |
| BrandTracker.ViaBrandTracker.SetBrand | src/main/java/org/bacon/noviaversionkick/network/ViaBrandTracker.java:20-29 | the new map is `BrandsAfterSet` of the old one |
| BrandTracker.SetBrandIdempotent | src/main/java/org/bacon/noviaversionkick/network/ViaBrandTracker.java:24-28 | setting the same brand (or removal) twice equals doing it once |
| BrandTracker.BrandWantsLegacy | src/main/java/org/bacon/noviaversionkick/network/ViaBrandTracker.java:39-43 | true iff "via" occurs at some index of the trimmed, lower-cased brand; a blank brand is never legacy |
| BrandTracker.NormalizeBrand | src/main/java/org/bacon/noviaversionkick/network/ViaBrandTracker.java:39 | the normalized brand is no longer than the brand, has no capital letter, and is empty iff the brand is all blanks |
| BrandTracker.LegacyDecision | src/main/java/org/bacon/noviaversionkick/network/ViaBrandTracker.java:31-44 | true iff the connection is non-null, has a stored brand, and "via" occurs in its normalized brand |
| BrandTracker.ViaBrandTracker.ShouldUseLegacyParticles | src/main/java/org/bacon/noviaversionkick/network/ViaBrandTracker.java:31-44 | the early-return query answers exactly that occurrence test (null connection and missing brand give false) |
| BrandTracker.LegacyAfterSet | src/main/java/org/bacon/noviaversionkick/network/ViaBrandTracker.java:20-44 | after `setBrand` the connection set answers from the new brand only (false after a removal), all others as before |
| BrandTracker.LegacyIgnoresCase | src/main/java/org/bacon/noviaversionkick/network/ViaBrandTracker.java:39 | brands equal up to ASCII case get the same decision |
| BrandTracker.LegacyIgnoresPadding | src/main/java/org/bacon/noviaversionkick/network/ViaBrandTracker.java:39 | blanks around a brand do not change the decision |
| BrandTracker.PaddedViaBrandWantsLegacy | src/main/java/org/bacon/noviaversionkick/network/ViaBrandTracker.java:39-43 | " ViaFabric " is legacy |
| BrandTracker.TrailingViaWantsLegacy | src/main/java/org/bacon/noviaversionkick/network/ViaBrandTracker.java:43 | "fabric-VIA" is legacy: "via" need not be a prefix |
| BrandTracker.ViaAnywhereWantsLegacy | src/main/java/org/bacon/noviaversionkick/network/ViaBrandTracker.java:39-43 | a brand with "via", in any letter case, at any index asks for legacy particles, whatever blanks surround it |
| BrandTracker.BrandWithoutViKeepsModern | src/main/java/org/bacon/noviaversionkick/network/ViaBrandTracker.java:39-43 | a brand in which no 'v' is followed by an 'i', in any letter case, keeps the modern packets |
| BrandTracker.VanillaKeepsModern | src/main/java/org/bacon/noviaversionkick/network/ViaBrandTracker.java:39-43 | "vanilla" is not legacy |
| BrandTracker.BlankBrandKeepsModern | src/main/java/org/bacon/noviaversionkick/network/ViaBrandTracker.java:40-42 | a blank brand is not legacy |
| Text.Trim | src/main/java/org/bacon/noviaversionkick/network/ViaBrandTracker.java:39 | the result starts and ends with a non-blank char, and is empty iff every char is at most U+0020 |
| Text.ToLowerAscii | src/main/java/org/bacon/noviaversionkick/network/ViaBrandTracker.java:39 | lower-casing keeps the length and leaves no ASCII capital |
| Text.StartsWith | src/main/java/org/bacon/noviaversionkick/mixin/ParticleS2CPacketMixin.java:104 | true iff the prefix fits and the string's first chars are exactly the prefix |
| Text.Contains | src/main/java/org/bacon/noviaversionkick/network/ViaBrandTracker.java:43 | an empty needle is always found and a needle longer than the string never is (`ContainsIffOccurs` gives the whole meaning) |
| Text.ContainsIffOccurs | src/main/java/org/bacon/noviaversionkick/network/ViaBrandTracker.java:43 | `contains` is true iff the needle occurs at some index |
| Text.LowerTrimCommute | src/main/java/org/bacon/noviaversionkick/network/ViaBrandTracker.java:39 | lower-casing and trimming commute |
| Text.TrimIgnoresPadding | src/main/java/org/bacon/noviaversionkick/network/ViaBrandTracker.java:39 | trimming ignores blank padding on both sides |
| Text.TrimIsSlice | src/main/java/org/bacon/noviaversionkick/network/ViaBrandTracker.java:39 | what `trim` keeps is one contiguous run of the brand with only blanks on either side of it |
| Text.TrimIdempotent | src/main/java/org/bacon/noviaversionkick/Noviaversionkick.java:69 | trimming twice equals trimming once |
| Text.LowerCaseIsFixed | src/main/java/org/bacon/noviaversionkick/Noviaversionkick.java:74 | lower-casing leaves a string without capitals unchanged |
| Wire.ReadVarIntAt | src/main/java/org/bacon/noviaversionkick/Noviaversionkick.java:65-67 | a successful `readVarInt` consumes 1 to 5 bytes and yields a 32-bit signed value |
| Wire.ReadStringAt | src/main/java/org/bacon/noviaversionkick/Noviaversionkick.java:69 | a successful `readString(32767)` consumes at least one byte and yields at most 32767 chars |
| Wire.VarIntRoundTrip | src/main/java/org/bacon/noviaversionkick/Noviaversionkick.java:65-67 | `readVarInt` reads back the bytes written for any non-negative int |
| Wire.StringRoundTrip | src/main/java/org/bacon/noviaversionkick/Noviaversionkick.java:69 | `readString(32767)` reads back a written string and stops right after it |
| Wire.PacketBuf.ReadVarInt | src/main/java/org/bacon/noviaversionkick/Noviaversionkick.java:65 | the reader index moves past the VarInt on success and stays put on failure |
| Wire.PacketBuf.ReadString | src/main/java/org/bacon/noviaversionkick/Noviaversionkick.java:69 | the reader index moves past the string on success and stays put on failure |
| Wire.PacketBuf.MarkReaderIndex | src/main/java/org/bacon/noviaversionkick/Noviaversionkick.java:63 | the mark becomes the reader index |
| Wire.PacketBuf.ResetReaderIndex | src/main/java/org/bacon/noviaversionkick/Noviaversionkick.java:83 | the reader index goes back to the mark |
| Wire.PacketBuf.IsReadable | src/main/java/org/bacon/noviaversionkick/Noviaversionkick.java:70-71 | when no byte is left, both `readVarInt` and `readString` throw |
| ModList.Collect | src/main/java/org/bacon/noviaversionkick/Noviaversionkick.java:73-75 | the list only grows, by at most one id |
| ModList.TrimmedIsModId | src/main/java/org/bacon/noviaversionkick/Noviaversionkick.java:69-75 | a non-empty trimmed id, lower-cased, is non-empty, trimmed and lower-case |
| ModList.VersionedEntry | src/main/java/org/bacon/noviaversionkick/Noviaversionkick.java:69-72 | an entry read consumes bytes and yields a trimmed id; `VersionedEntryAtEnd` and `VersionedEntryNeedsVersion` pin when the version string is read |
| ModList.PlainEntry | src/main/java/org/bacon/noviaversionkick/Noviaversionkick.java:88 | an entry read consumes bytes and yields a trimmed id |
| ModList.VersionedLoop | src/main/java/org/bacon/noviaversionkick/Noviaversionkick.java:68-76 | the first attempt's loop only appends to the shared list, and a completed loop stops inside the buffer |
| ModList.PlainLoop | src/main/java/org/bacon/noviaversionkick/Noviaversionkick.java:87-92 | the second attempt's loop only appends to the shared list, and a completed loop stops inside the buffer |
| ModList.AddNew | src/main/java/org/bacon/noviaversionkick/Noviaversionkick.java:107 | the set gains exactly the new id and stays free of duplicates |
| ModList.UnboundedLoop | src/main/java/org/bacon/noviaversionkick/Noviaversionkick.java:102-108 | a loop that does not throw keeps every id seen and adds no duplicate |
| ModList.Finish | src/main/java/org/bacon/noviaversionkick/Noviaversionkick.java:77-79 | an attempt returns iff its loop completed with a non-empty list; otherwise the list is handed on |
| ModList.VersionedAttempt | src/main/java/org/bacon/noviaversionkick/Noviaversionkick.java:64-82 | a missing or out-of-range (outside 0..5) handshake version gives up with the list still empty |
| ModList.PlainAttempt | src/main/java/org/bacon/noviaversionkick/Noviaversionkick.java:85-97 | a missing count gives up with the list as the first attempt left it |
| ModList.UnboundedAttempt | src/main/java/org/bacon/noviaversionkick/Noviaversionkick.java:100-113 | the list only grows, and what is appended has no duplicates |
| ModList.ParseModList | src/main/java/org/bacon/noviaversionkick/Noviaversionkick.java:61-115 | what the first attempt appended before it gave up heads the final list |
| ModList.VersionedLoopKeepsModIds | src/main/java/org/bacon/noviaversionkick/Noviaversionkick.java:68-76 | the first attempt's loop only appends, and only mod ids |
| ModList.PlainLoopKeepsModIds | src/main/java/org/bacon/noviaversionkick/Noviaversionkick.java:87-92 | the second attempt's loop only appends, and only mod ids |
| ModList.UnboundedLoopKeepsModIds | src/main/java/org/bacon/noviaversionkick/Noviaversionkick.java:102-108 | the third attempt's loop only collects mod ids |
| ModList.ParseModListYieldsModIds | src/main/java/org/bacon/noviaversionkick/Noviaversionkick.java:61-115 | every id handed out is non-empty, trimmed and lower-case, and what the first attempt appended before giving up heads the result |
| ModList.ReadVersionedEntry | src/main/java/org/bacon/noviaversionkick/Noviaversionkick.java:69-72 | reads id and, when bytes remain, the version, as `VersionedEntry` says |
| ModList.ReadPlainEntry | src/main/java/org/bacon/noviaversionkick/Noviaversionkick.java:88 | reads one trimmed id, as `PlainEntry` says |
| ModList.TryVersionedList | src/main/java/org/bacon/noviaversionkick/Noviaversionkick.java:64-82 | the first `try` block ends as `VersionedAttempt` says |
| ModList.VersionedIds | src/main/java/org/bacon/noviaversionkick/Noviaversionkick.java:67-79 | the counted loop (proved by its invariant) ends as `VersionedLoop` says |
| ModList.TryPlainList | src/main/java/org/bacon/noviaversionkick/Noviaversionkick.java:85-97 | the second `try` block ends as `PlainAttempt` says |
| ModList.PlainIds | src/main/java/org/bacon/noviaversionkick/Noviaversionkick.java:86-95 | the counted loop ends as `PlainLoop` says |
| ModList.TryUnboundedList | src/main/java/org/bacon/noviaversionkick/Noviaversionkick.java:100-113 | the `while (isReadable)` loop with its early break yields `UnboundedAttempt` |
| ModList.ParseModListPayload | src/main/java/org/bacon/noviaversionkick/Noviaversionkick.java:61-115 | the three attempts with mark/reset and one shared list return `ParseModList` of the readable bytes |
| ModList.ReceiveModList | src/main/java/org/bacon/noviaversionkick/Noviaversionkick.java:35-58 | reports nothing iff the query was not understood, the payload is missing or the parse is empty; otherwise the parsed list, non-empty and made of mod ids |
| ModListProperties.EncodedStringsAreRead | src/main/java/org/bacon/noviaversionkick/Noviaversionkick.java:69 | successive `readString` calls read back successively written strings |
| ModListProperties.VersionedEntryReadsPair | src/main/java/org/bacon/noviaversionkick/Noviaversionkick.java:69-75 | an (id, version) pair reads as the id, with the version consumed |
| ModListProperties.VersionedEntryAtEnd | src/main/java/org/bacon/noviaversionkick/Noviaversionkick.java:69-72 | an id that ends the buffer is read without a version string, as the trimmed id |
| ModListProperties.VersionedEntryNeedsVersion | src/main/java/org/bacon/noviaversionkick/Noviaversionkick.java:69-72 | an id with bytes after it reads a version string from them, and the entry throws when that read throws |
| ModListProperties.VersionedLoopReadsEntries | src/main/java/org/bacon/noviaversionkick/Noviaversionkick.java:68-76 | the first attempt's loop appends the ids of written entries, in order, and completes right after them |
| ModListProperties.VersionedListLayout | src/main/java/org/bacon/noviaversionkick/Noviaversionkick.java:65-67 | a written versioned list reads as its version, its count, then its strings |
| ModListProperties.VersionedAttemptReadsEntries | src/main/java/org/bacon/noviaversionkick/Noviaversionkick.java:64-79 | the first attempt returns exactly the written ids |
| ModListProperties.VersionedListRoundTrip | src/main/java/org/bacon/noviaversionkick/Noviaversionkick.java:61-79 | a versioned list (version 0..5, n >= 1 well-formed entries) parses to its ids in order, whatever follows it |
| ModListProperties.VersionedLoopReadsBareLast | src/main/java/org/bacon/noviaversionkick/Noviaversionkick.java:68-76 | the loop over written entries and then an id ending the buffer appends every id, the bare one last |
| ModListProperties.VersionedListBareLastLayout | src/main/java/org/bacon/noviaversionkick/Noviaversionkick.java:65-72 | a versioned list with a bare last id reads as its version, its count, its pairs, then the bare id ending the buffer |
| ModListProperties.VersionedAttemptReadsBareLast | src/main/java/org/bacon/noviaversionkick/Noviaversionkick.java:64-79 | the first attempt returns every written id, the bare one last |
| ModListProperties.VersionedListBareLastRoundTrip | src/main/java/org/bacon/noviaversionkick/Noviaversionkick.java:61-79 | a versioned list whose last id has no version string and ends the buffer parses to all its ids in order |
| ModListProperties.PlainLoopReadsIds | src/main/java/org/bacon/noviaversionkick/Noviaversionkick.java:87-92 | the second attempt's loop appends written ids in order |
| ModListProperties.PlainListLayout | src/main/java/org/bacon/noviaversionkick/Noviaversionkick.java:86 | a written plain list reads as its count, then its ids |
| ModListProperties.PlainListRoundTrip | src/main/java/org/bacon/noviaversionkick/Noviaversionkick.java:85-95 | the second attempt returns what the first left followed by the written ids |
| ModListProperties.EmptyStringAt | src/main/java/org/bacon/noviaversionkick/Noviaversionkick.java:103-105 | a zero byte reads as the empty string that ends the third attempt |
| ModListProperties.UnboundedLoopReadsIds | src/main/java/org/bacon/noviaversionkick/Noviaversionkick.java:102-108 | written ids up to the end or an empty string are all collected, and nothing else |
| ModListProperties.UnboundedAttemptReadsIds | src/main/java/org/bacon/noviaversionkick/Noviaversionkick.java:100-111 | the third attempt appends exactly the set of written ids |
| ModListProperties.UnboundedListCollectsIds | src/main/java/org/bacon/noviaversionkick/Noviaversionkick.java:100-111 | written ids followed by the end or an empty string: the third attempt appends exactly those ids |
| ModListProperties.SharedPayloadStrings | src/main/java/org/bacon/noviaversionkick/Noviaversionkick.java:65-88 | the reads on the example payload, at each offset the attempts use |
| ModListProperties.SharedPayloadFirstAttempt | src/main/java/org/bacon/noviaversionkick/Noviaversionkick.java:64-82 | on the example payload the first attempt appends "a" and then throws |
| ModListProperties.SharedListKeepsPartialAttempt | src/main/java/org/bacon/noviaversionkick/Noviaversionkick.java:62-98 | the "a" left by the failed first attempt stays, so the result is ["a", "a"] |
| ParticlePacket.ShouldSuppress | src/main/java/org/bacon/noviaversionkick/mixin/ParticleS2CPacketMixin.java:98-105 | true iff the type is registered and its identifier path starts with "falling_" |
| ParticlePacket.SuppressionExamples | src/main/java/org/bacon/noviaversionkick/mixin/ParticleS2CPacketMixin.java:98-105 | "falling_dust" is suppressed; "dust" and unregistered types are not |
| ParticlePacket.Fraction | src/main/java/org/bacon/noviaversionkick/mixin/ParticleS2CPacketMixin.java:135-141 | the fractional part is in [0, 1) and adds back to the coordinate |
| ParticlePacket.FaceDistance | src/main/java/org/bacon/noviaversionkick/mixin/ParticleS2CPacketMixin.java:143-145 | the distance to the nearer face of the cell, in [0, 0.5] |
| ParticlePacket.Snap | src/main/java/org/bacon/noviaversionkick/mixin/ParticleS2CPacketMixin.java:150-154 | the snapped coordinate is the floor or floor + 1, exactly the face distance away |
| ParticlePacket.AlignedPosition | src/main/java/org/bacon/noviaversionkick/mixin/ParticleS2CPacketMixin.java:122-161 | non-block-state effects keep their position |
| ParticlePacket.SnappedAxis | src/main/java/org/bacon/noviaversionkick/mixin/ParticleS2CPacketMixin.java:147-156 | an axis snaps iff the nearest face is within 0.3, and the snapped axis is within 1e-6 of that nearest face |
| ParticlePacket.SnappedAxisIsNearest | src/main/java/org/bacon/noviaversionkick/mixin/ParticleS2CPacketMixin.java:147-155 | no axis snaps iff the nearest face is farther than 0.3; the chosen axis is within 1e-6 of the nearest and the axes before it (X, then Y) are not |
| ParticlePacket.AlignedMovesOneAxis | src/main/java/org/bacon/noviaversionkick/mixin/ParticleS2CPacketMixin.java:148-156 | at most one coordinate changes |
| ParticlePacket.AlignedLandsOnFace | src/main/java/org/bacon/noviaversionkick/mixin/ParticleS2CPacketMixin.java:148-156 | a changed coordinate becomes floor or floor + 1 and moves at most 0.3 + 1e-6 |
| ParticlePacket.FarFromFacesUnchanged | src/main/java/org/bacon/noviaversionkick/mixin/ParticleS2CPacketMixin.java:148 | nothing moves when every face is farther than 0.3 |
| ParticlePacket.XWinsTies | src/main/java/org/bacon/noviaversionkick/mixin/ParticleS2CPacketMixin.java:149-150 | X snaps whenever it is within 1e-6 of the nearest face and that face is near enough |
| ParticlePacket.SnapExample | src/main/java/org/bacon/noviaversionkick/mixin/ParticleS2CPacketMixin.java:131-160 | (10.05, 5.5, 3.5) becomes (10.0, 5.5, 3.5) |
| ParticlePacket.LegacyEncoding | src/main/java/org/bacon/noviaversionkick/mixin/ParticleS2CPacketMixin.java:68-96 | null parameters write nothing; the encoding fails iff the effect is not suppressed and its codec throws |
| ParticlePacket.SuppressedTokens | src/main/java/org/bacon/noviaversionkick/mixin/ParticleS2CPacketMixin.java:107-120 | exactly ten tokens, which read back as POOF, not forced, at the given position, with zero offsets, speed and count and no tail |
| ParticlePacket.LegacyRoundTrip | src/main/java/org/bacon/noviaversionkick/mixin/ParticleS2CPacketMixin.java:79-92 | the legacy layout reads back as type id, force flag, aligned position, offsets, speed, count and the codec's bytes, in that order |
| ParticlePacket.SuppressedRoundTrip | src/main/java/org/bacon/noviaversionkick/mixin/ParticleS2CPacketMixin.java:107-120 | a suppressed packet reads back as POOF, not forced, at the original position, with zero offsets, speed and count and no tail (not even an empty one) |
| ParticlePacket.ParticleS2CPacket.WriteLegacyWhenNeeded | src/main/java/org/bacon/noviaversionkick/mixin/ParticleS2CPacketMixin.java:59-66 | a non-legacy connection writes nothing and proceeds; a legacy one writes the legacy encoding and cancels, or writes nothing and throws when the codec throws |
| ParticlePacket.ParticleS2CPacket.WriteLegacy | src/main/java/org/bacon/noviaversionkick/mixin/ParticleS2CPacketMixin.java:68-96 | appends exactly `LegacyEncoding`, or nothing when the codec throws |
| ParticlePacket.ParticleS2CPacket.WriteSuppressed | src/main/java/org/bacon/noviaversionkick/mixin/ParticleS2CPacketMixin.java:107-120 | appends the ten POOF tokens |
| ParticlePacket.ParticleS2CPacket.WriteAlignedPosition | src/main/java/org/bacon/noviaversionkick/mixin/ParticleS2CPacketMixin.java:122-161 | appends the three doubles of `AlignedPosition` |
| ParticlePacket.ParticleS2CPacket.SetConnection | src/main/java/org/bacon/noviaversionkick/mixin/ParticleS2CPacketMixin.java:49-52 | the connection the packet is sent on is recorded |

## Left out

- `BRANDS` is a `Collections.synchronizedMap` over a `WeakHashMap`. Its locking, and the removal of entries when a connection is garbage-collected, are not modelled: the tracker is a plain map.
- `ViaBrandTracker.setClientModList` and `trackChannels` are called by the receiver and by the play handler, but they do not exist in `ViaBrandTracker.java`. `ModList.ReceiveModList` therefore returns what it would hand to `setClientModList` (`None` for `null`) instead of storing it.
- `ClientConnectionMixin`, `ServerPlayNetworkHandlerMixin` and `ServerCommonNetworkHandlerAccessor` are not part of this model. They are host glue: tagging a packet with its connection, dispatching payloads, and a generated accessor.
- `onInitialize`, the receiver registration, `PacketByteBufs.copy`/`release`, `describeConnection` and all logging are host I/O. They are not modelled. The copy is modelled as a fresh buffer over the readable bytes.
- `ModList.ReceiveModList`: the `catch (Throwable)` branch is absent. In the model the parser never throws, so only a host failure such as running out of memory could reach that branch.
- `Wire.ReadStringAt`: UTF-8 decoding is not modelled. Each byte is one char, so for non-ASCII ids the char-count check and the content differ from `PacketByteBuf`.
- A failed read leaves the model's reader index where it was; Netty may have advanced it. Every failure is followed by a reset or a return, so nothing observable depends on this.
- `Text.ToLowerAscii`: `toLowerCase(Locale.ROOT)` is modelled for ASCII letters only.
- `Text.Contains`: its own contract states only that an empty needle is found and an overlong one is not; that it is true exactly when the needle occurs is the separate lemma `Text.ContainsIffOccurs`.
- `ModList.UnboundedAttempt`: `HashSet` iteration order is modelled as first-seen order. The contract states only membership and the absence of duplicates, which hold for any order.
- `Registries.PARTICLE_TYPE` and `ParticleTypes.PACKET_CODEC` are not part of this model. Each particle type carries its raw id and identifier, each effect carries the codec's bytes (or their absence, when the codec throws), and POOF's raw id is a parameter. The Netty scratch buffer and its release are not modelled.
- `ParticlePacket.AlignedPosition`: doubles and floats are exact reals. IEEE-754 rounding, NaN, infinities and the sign of zero are not modelled, and neither is the byte layout of `writeDouble`/`writeFloat`/`writeInt`.
- `ParticlePacket.ParticleS2CPacket.WriteLegacy`: `count` is an unbounded integer, and the raw id's VarInt encoding is a token, not bytes.
- The mixin's `getConnection` is a plain read of the `connection` field.
