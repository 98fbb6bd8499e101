/**
  What the three attempts of `parseModListPayload` read back from the layouts
  they are written for, and what the shared list does on a payload that is none
  of them.
 */
module ModListProperties {
  import opened Wrappers
  import opened Text
  import opened Wire
  import opened ModList

  /** An entry of the versioned list: a mod id and the version string sent after it. */
  datatype ModEntry = ModEntry(id: string, version: string)

  /** Strings `writeString` can write, each of them. */
  predicate AllWritable(raws: seq<string>) {
    raws == [] || (IsWritable(raws[0]) && AllWritable(raws[1..]))
  }

  function Ids(entries: seq<ModEntry>): (ids: seq<string>)
    ensures |ids| == |entries|
    ensures forall k :: 0 <= k < |entries| ==> ids[k] == entries[k].id
  {
    if entries == [] then [] else [entries[0].id] + Ids(entries[1..])
  }

  /** The strings of a versioned list in the order they are sent: id, version, id, version, ... */
  function Flatten(entries: seq<ModEntry>): (raws: seq<string>)
    ensures |raws| == 2 * |entries|
  {
    if entries == [] then [] else [entries[0].id, entries[0].version] + Flatten(entries[1..])
  }

  /** Entries a well-behaved client sends: ids the parser keeps as they are, and strings it can write. */
  predicate AllWellFormed(entries: seq<ModEntry>) {
    AllModIds(Ids(entries)) && AllWritable(Flatten(entries))
  }

  /** Ids the parser keeps as they are and that `writeString` can write. */
  predicate AllSendable(ids: seq<string>) {
    AllModIds(ids) && AllWritable(ids)
  }

  /** `writeString` of each string in turn. */
  function EncodeStrings(raws: seq<string>): seq<byte>
    requires AllWritable(raws)
  {
    if raws == [] then [] else WriteString(raws[0]) + EncodeStrings(raws[1..])
  }

  /** The layout the first attempt expects: handshake version, count, then (id, version) pairs. */
  function EncodeVersionedList(handshakeVersion: nat, entries: seq<ModEntry>): seq<byte>
    requires AllWritable(Flatten(entries))
  {
    WriteVarInt(handshakeVersion) + (WriteVarInt(|entries|) + EncodeStrings(Flatten(entries)))
  }

  /** The layout the second attempt expects: a count, then the ids. */
  function EncodePlainList(ids: seq<string>): seq<byte>
    requires AllWritable(ids)
  {
    WriteVarInt(|ids|) + EncodeStrings(ids)
  }

  lemma CollectModId(acc: seq<string>, id: string)
    requires IsModId(id)
    ensures Collect(acc, id) == acc + [id]
  {
    LowerCaseIsFixed(id);
  }

  lemma AppendHead<T>(acc: seq<T>, s: seq<T>)
    requires s != []
    ensures acc + [s[0]] + s[1..] == acc + s
  {
    assert acc + [s[0]] + s[1..] == acc + ([s[0]] + s[1..]);
    assert [s[0]] + s[1..] == s;
  }

  lemma AppendToNothing<T>(s: seq<T>)
    ensures [] + s == s
  {
  }

  lemma DropPrefix<T>(acc: seq<T>, s: seq<T>)
    ensures (acc + s)[|acc|..] == s
  {
  }

  lemma AppendNothing<T>(acc: seq<T>, s: seq<T>)
    requires s == []
    ensures acc + s == acc
  {
  }

  lemma AllModIdsTail(ids: seq<string>)
    requires ids != [] && AllModIds(ids)
    ensures IsModId(ids[0]) && AllModIds(ids[1..])
  {
    assert forall k :: 0 <= k < |ids| - 1 ==> ids[1..][k] == ids[k + 1];
  }

  lemma IdsTail(entries: seq<ModEntry>)
    requires entries != []
    ensures Ids(entries)[1..] == Ids(entries[1..])
  {
    assert ([entries[0].id] + Ids(entries[1..]))[1..] == Ids(entries[1..]);
  }

  lemma FlattenTail(entries: seq<ModEntry>)
    requires entries != []
    ensures Flatten(entries)[0] == entries[0].id
    ensures Flatten(entries)[1..][0] == entries[0].version
    ensures Flatten(entries)[1..][1..] == Flatten(entries[1..])
  {
    var rest := Flatten(entries[1..]);
    assert Flatten(entries) == [entries[0].id, entries[0].version] + rest;
    assert Flatten(entries)[1..] == [entries[0].version] + rest;
    assert ([entries[0].version] + rest)[1..] == rest;
  }

  /** From `pos` on, `data` holds strings that `readString` reads as `raws`, ending at `end`. */
  ghost predicate StringsAt(data: seq<byte>, pos: nat, raws: seq<string>, end: nat)
    decreases |raws|
  {
    if raws == [] then pos == end
    else
      ReadStringAt(data, pos, MaxStringLength).Some? &&
      ReadStringAt(data, pos, MaxStringLength).value.0 == raws[0] &&
      StringsAt(data, ReadStringAt(data, pos, MaxStringLength).value.1, raws[1..], end)
  }

  /** `readString` reads back, one by one, the strings `writeString` wrote. */
  lemma {:induction false} EncodedStringsAreRead(data: seq<byte>, pos: nat, raws: seq<string>, end: nat)
    requires AllWritable(raws)
    requires HoldsAt(data, pos, EncodeStrings(raws)) && end == pos + |EncodeStrings(raws)|
    ensures StringsAt(data, pos, raws, end)
    decreases |raws|
  {
    if raws != [] {
      var head := WriteString(raws[0]);
      var tail := EncodeStrings(raws[1..]);
      HoldsAtSplit(data, pos, head, tail);
      StringRoundTrip(data, pos, raws[0]);
      EncodedStringsAreRead(data, pos + |head|, raws[1..], end);
    }
  }

  /** An id followed by a version string: the first attempt reads the id and drops the version. */
  lemma VersionedEntryReadsPair(data: seq<byte>, pos: nat, e: ModEntry, raws: seq<string>, end: nat)
    requires |raws| >= 2 && raws[0] == e.id && raws[1..][0] == e.version && IsModId(e.id)
    requires StringsAt(data, pos, raws, end)
    ensures VersionedEntry(data, pos).Some? && VersionedEntry(data, pos).value.0 == e.id
    ensures StringsAt(data, VersionedEntry(data, pos).value.1, raws[1..][1..], end)
  {
    TrimmedIsFixed(e.id);
  }

  /** An id that ends the buffer: no version string is read for it, and the entry is the trimmed id. */
  lemma VersionedEntryAtEnd(data: seq<byte>, pos: nat, raw: string)
    requires IsWritable(raw)
    requires HoldsAt(data, pos, WriteString(raw)) && pos + |WriteString(raw)| == |data|
    ensures VersionedEntry(data, pos) == Some((Trim(raw), |data|))
  {
    StringRoundTrip(data, pos, raw);
    assert ReadStringAt(data, pos, MaxStringLength) == Some((raw, |data|));
  }

  /** An id with bytes after it: those bytes must read as a version string, or the entry throws. */
  lemma VersionedEntryNeedsVersion(data: seq<byte>, pos: nat, raw: string) returns (afterId: nat)
    requires IsWritable(raw)
    requires HoldsAt(data, pos, WriteString(raw)) && pos + |WriteString(raw)| < |data|
    ensures afterId == pos + |WriteString(raw)|
    ensures ReadStringAt(data, afterId, MaxStringLength).None? ==> VersionedEntry(data, pos).None?
    ensures ReadStringAt(data, afterId, MaxStringLength).Some? ==>
              VersionedEntry(data, pos) == Some((Trim(raw), ReadStringAt(data, afterId, MaxStringLength).value.1))
  {
    afterId := pos + |WriteString(raw)|;
    StringRoundTrip(data, pos, raw);
    assert ReadStringAt(data, pos, MaxStringLength) == Some((raw, afterId));
  }

  /** One entry read by the first attempt's loop. */
  lemma VersionedLoopStep(data: seq<byte>, pos: nat, i: int, count: int, acc: seq<string>, id: string, next: nat)
    requires pos <= |data| && i < count && IsModId(id)
    requires VersionedEntry(data, pos) == Some((id, next))
    ensures next <= |data|
    ensures VersionedLoop(data, pos, i, count, acc) == VersionedLoop(data, next, i + 1, count, acc + [id])
  {
    CollectModId(acc, id);
  }

  /** The first attempt's loop over written entries appends their ids in order and completes right after them. */
  lemma {:induction false} VersionedLoopReadsEntries(
    data: seq<byte>, pos: nat, i: int, count: int, acc: seq<string>, entries: seq<ModEntry>, end: nat)
    requires pos <= |data| && AllModIds(Ids(entries))
    requires i + |entries| == count
    requires StringsAt(data, pos, Flatten(entries), end)
    ensures VersionedLoop(data, pos, i, count, acc) == Completed(acc + Ids(entries), end)
    decreases |entries|
  {
    var ids := Ids(entries);
    if entries == [] {
      AppendNothing(acc, ids);
    } else {
      var e := entries[0];
      FlattenTail(entries);
      AllModIdsTail(ids);
      IdsTail(entries);
      VersionedEntryReadsPair(data, pos, e, Flatten(entries), end);
      var next := VersionedEntry(data, pos).value.1;
      VersionedLoopStep(data, pos, i, count, acc, e.id, next);
      VersionedLoopReadsEntries(data, next, i + 1, count, acc + [e.id], entries[1..], end);
      AppendHead(acc, ids);
    }
  }

  /** The same loop over written entries followed by an id that ends the buffer: the bare id is read last. */
  lemma {:induction false} VersionedLoopReadsBareLast(
    data: seq<byte>, pos: nat, i: int, count: int, acc: seq<string>, entries: seq<ModEntry>, last: string, end: nat)
    requires pos <= |data| && AllModIds(Ids(entries)) && IsModId(last)
    requires i + |entries| + 1 == count
    requires StringsAt(data, pos, Flatten(entries), end)
    requires end <= |data| && VersionedEntry(data, end) == Some((last, |data|))
    ensures VersionedLoop(data, pos, i, count, acc) == Completed(acc + Ids(entries) + [last], |data|)
    decreases |entries|
  {
    var ids := Ids(entries);
    if entries == [] {
      AppendNothing(acc, ids);
      VersionedLoopStep(data, end, i, count, acc, last, |data|);
    } else {
      var e := entries[0];
      FlattenTail(entries);
      AllModIdsTail(ids);
      IdsTail(entries);
      VersionedEntryReadsPair(data, pos, e, Flatten(entries), end);
      var next := VersionedEntry(data, pos).value.1;
      VersionedLoopStep(data, pos, i, count, acc, e.id, next);
      VersionedLoopReadsBareLast(data, next, i + 1, count, acc + [e.id], entries[1..], last, end);
      AppendHead(acc, ids);
    }
  }

  /** Where the bytes of a versioned list put its parts: both VarInts, then the strings. */
  lemma VersionedListLayout(data: seq<byte>, start: nat, handshakeVersion: nat, entries: seq<ModEntry>)
    returns (afterVersion: nat, afterCount: nat, end: nat)
    requires |entries| < TwoTo31 && handshakeVersion < TwoTo31 && AllWritable(Flatten(entries))
    requires HoldsAt(data, start, EncodeVersionedList(handshakeVersion, entries))
    ensures ReadVarIntAt(data, start) == Some((handshakeVersion as int, afterVersion))
    ensures ReadVarIntAt(data, afterVersion) == Some((|entries|, afterCount))
    ensures afterCount <= |data| && StringsAt(data, afterCount, Flatten(entries), end)
  {
    var body := EncodeStrings(Flatten(entries));
    afterVersion, afterCount := TwoVarIntsThen(data, start, handshakeVersion, |entries|, body);
    end := afterCount + |body|;
    EncodedStringsAreRead(data, afterCount, Flatten(entries), end);
  }

  /**
    A versioned list followed by anything at all parses back to its ids, in
    order and with their versions dropped.
   */
  lemma VersionedListRoundTrip(data: seq<byte>, start: nat, handshakeVersion: nat, entries: seq<ModEntry>)
    requires handshakeVersion <= MaxHandshakeVersion as nat
    requires 1 <= |entries| < TwoTo31 && AllWellFormed(entries)
    requires HoldsAt(data, start, EncodeVersionedList(handshakeVersion, entries))
    ensures ParseModList(data, start) == Ids(entries)
  {
    var afterVersion, afterCount, end := VersionedListLayout(data, start, handshakeVersion, entries);
    VersionedAttemptReadsEntries(data, start, handshakeVersion, entries, afterVersion, afterCount, end);
  }

  /** The first attempt on a versioned list laid out as `VersionedListLayout` describes. */
  lemma VersionedAttemptReadsEntries(data: seq<byte>, start: nat, handshakeVersion: nat, entries: seq<ModEntry>,
                                     afterVersion: nat, afterCount: nat, end: nat)
    requires start <= |data| && handshakeVersion <= MaxHandshakeVersion as nat && 1 <= |entries|
    requires AllModIds(Ids(entries))
    requires ReadVarIntAt(data, start) == Some((handshakeVersion as int, afterVersion))
    requires ReadVarIntAt(data, afterVersion) == Some((|entries|, afterCount))
    requires afterCount <= |data| && StringsAt(data, afterCount, Flatten(entries), end)
    ensures VersionedAttempt(data, start) == Returned(Ids(entries))
  {
    VersionedLoopReadsEntries(data, afterCount, 0, |entries|, [], entries, end);
    AppendToNothing(Ids(entries));
    assert VersionedLoop(data, afterCount, 0, |entries|, []) == Completed(Ids(entries), end);
  }

  /**
    The layout of a versioned list whose last id comes without a version string:
    handshake version, count, the (id, version) pairs, then the bare id.
   */
  function EncodeVersionedListBareLast(handshakeVersion: nat, entries: seq<ModEntry>, last: string): seq<byte>
    requires AllWritable(Flatten(entries)) && IsWritable(last)
  {
    WriteVarInt(handshakeVersion) + (WriteVarInt(|entries| + 1) + (EncodeStrings(Flatten(entries)) + WriteString(last)))
  }

  /**
    The version string of the last entry may be left out when its id ends the
    buffer: the list still parses back to every id, the bare one last.
   */
  lemma VersionedListBareLastRoundTrip(data: seq<byte>, start: nat, handshakeVersion: nat, entries: seq<ModEntry>,
                                       last: string)
    requires handshakeVersion <= MaxHandshakeVersion as nat
    requires |entries| + 1 < TwoTo31 && AllWellFormed(entries) && IsModId(last) && IsWritable(last)
    requires HoldsAt(data, start, EncodeVersionedListBareLast(handshakeVersion, entries, last))
    requires start + |EncodeVersionedListBareLast(handshakeVersion, entries, last)| == |data|
    ensures ParseModList(data, start) == Ids(entries) + [last]
  {
    var afterVersion, afterCount, end := VersionedListBareLastLayout(data, start, handshakeVersion, entries, last);
    VersionedAttemptReadsBareLast(data, start, handshakeVersion, entries, last, afterVersion, afterCount, end);
  }

  /** Where the bytes of a versioned list with a bare last id put its parts. */
  lemma VersionedListBareLastLayout(data: seq<byte>, start: nat, handshakeVersion: nat, entries: seq<ModEntry>,
                                    last: string)
    returns (afterVersion: nat, afterCount: nat, end: nat)
    requires |entries| + 1 < TwoTo31 && handshakeVersion < TwoTo31 && AllWritable(Flatten(entries))
    requires IsModId(last) && IsWritable(last)
    requires HoldsAt(data, start, EncodeVersionedListBareLast(handshakeVersion, entries, last))
    requires start + |EncodeVersionedListBareLast(handshakeVersion, entries, last)| == |data|
    ensures ReadVarIntAt(data, start) == Some((handshakeVersion as int, afterVersion))
    ensures ReadVarIntAt(data, afterVersion) == Some((|entries| + 1, afterCount))
    ensures afterCount <= |data| && StringsAt(data, afterCount, Flatten(entries), end)
    ensures end <= |data| && VersionedEntry(data, end) == Some((last, |data|))
  {
    var body := EncodeStrings(Flatten(entries));
    var tail := WriteString(last);
    afterVersion, afterCount := TwoVarIntsThen(data, start, handshakeVersion, |entries| + 1, body + tail);
    HoldsAtSplit(data, afterCount, body, tail);
    end := afterCount + |body|;
    assert end + |tail| == |data| by {
      assert afterVersion == start + |WriteVarInt(handshakeVersion)|;
      assert afterCount == afterVersion + |WriteVarInt(|entries| + 1)|;
    }
    EncodedStringsAreRead(data, afterCount, Flatten(entries), end);
    VersionedEntryAtEnd(data, end, last);
    TrimmedIsFixed(last);
  }

  /** The first attempt on a versioned list with a bare last id, laid out as `VersionedListBareLastLayout` describes. */
  lemma VersionedAttemptReadsBareLast(data: seq<byte>, start: nat, handshakeVersion: nat, entries: seq<ModEntry>,
                                      last: string, afterVersion: nat, afterCount: nat, end: nat)
    requires start <= |data| && handshakeVersion <= MaxHandshakeVersion as nat
    requires AllModIds(Ids(entries)) && IsModId(last)
    requires ReadVarIntAt(data, start) == Some((handshakeVersion as int, afterVersion))
    requires ReadVarIntAt(data, afterVersion) == Some((|entries| + 1, afterCount))
    requires afterCount <= |data| && StringsAt(data, afterCount, Flatten(entries), end)
    requires end <= |data| && VersionedEntry(data, end) == Some((last, |data|))
    ensures VersionedAttempt(data, start) == Returned(Ids(entries) + [last])
  {
    VersionedLoopReadsBareLast(data, afterCount, 0, |entries| + 1, [], entries, last, end);
    AppendToNothing(Ids(entries));
  }

  /** One id read by the second attempt's loop. */
  lemma PlainLoopStep(data: seq<byte>, pos: nat, i: int, count: int, acc: seq<string>, id: string, next: nat)
    requires pos <= |data| && i < count && IsModId(id)
    requires ReadStringAt(data, pos, MaxStringLength) == Some((id, next))
    ensures next <= |data|
    ensures PlainLoop(data, pos, i, count, acc) == PlainLoop(data, next, i + 1, count, acc + [id])
  {
    TrimmedIsFixed(id);
    CollectModId(acc, id);
  }

  lemma {:induction false} PlainLoopReadsIds(
    data: seq<byte>, pos: nat, i: int, count: int, acc: seq<string>, ids: seq<string>, end: nat)
    requires pos <= |data| && AllModIds(ids)
    requires i + |ids| == count
    requires StringsAt(data, pos, ids, end)
    ensures PlainLoop(data, pos, i, count, acc) == Completed(acc + ids, end)
    decreases |ids|
  {
    if ids == [] {
      AppendNothing(acc, ids);
    } else {
      AllModIdsTail(ids);
      var next := ReadStringAt(data, pos, MaxStringLength).value.1;
      PlainLoopStep(data, pos, i, count, acc, ids[0], next);
      PlainLoopReadsIds(data, next, i + 1, count, acc + [ids[0]], ids[1..], end);
      AppendHead(acc, ids);
    }
  }

  /** Where the bytes of a plain list put its parts: the count, then the strings. */
  lemma PlainListLayout(data: seq<byte>, start: nat, ids: seq<string>) returns (afterCount: nat, end: nat)
    requires |ids| < TwoTo31 && AllWritable(ids)
    requires HoldsAt(data, start, EncodePlainList(ids))
    ensures ReadVarIntAt(data, start) == Some((|ids|, afterCount))
    ensures afterCount <= |data| && StringsAt(data, afterCount, ids, end)
  {
    var body := EncodeStrings(ids);
    afterCount := VarIntThen(data, start, |ids|, body);
    end := afterCount + |body|;
    EncodedStringsAreRead(data, afterCount, ids, end);
  }

  /**
    The second attempt reads a plain list back and appends it to whatever the
    first attempt left in the list.
   */
  lemma PlainListRoundTrip(data: seq<byte>, start: nat, acc: seq<string>, ids: seq<string>)
    requires 1 <= |ids| < TwoTo31 && AllSendable(ids)
    requires HoldsAt(data, start, EncodePlainList(ids))
    ensures PlainAttempt(data, start, acc) == Returned(acc + ids)
  {
    var afterCount, end := PlainListLayout(data, start, ids);
    PlainLoopReadsIds(data, afterCount, 0, |ids|, acc, ids, end);
  }

  /** A zero byte is the VarInt length of the empty string, which ends the third attempt's loop. */
  lemma EmptyStringAt(data: seq<byte>, pos: nat)
    requires pos < |data| && data[pos] == 0
    ensures ReadStringAt(data, pos, MaxStringLength) == Some(("", pos + 1))
  {
    assert VarIntGroups(data, pos, 0) == Some((0, pos + 1));
    assert data[pos + 1..pos + 1] == [];
  }

  lemma {:induction false} UnboundedLoopReadsIds(data: seq<byte>, pos: nat, seen: seq<string>, ids: seq<string>, end: nat)
    requires pos <= |data| && AllModIds(ids)
    requires StringsAt(data, pos, ids, end)
    requires end == |data| || (end < |data| && data[end] == 0)
    ensures UnboundedLoop(data, pos, seen).Some?
    ensures forall x :: x in UnboundedLoop(data, pos, seen).value <==> x in seen || x in ids
    decreases |ids|
  {
    if ids == [] {
      if pos < |data| {
        EmptyStringAt(data, pos);
      }
    } else {
      AllModIdsTail(ids);
      TrimmedIsFixed(ids[0]);
      LowerCaseIsFixed(ids[0]);
      UnboundedLoopReadsIds(
        data, ReadStringAt(data, pos, MaxStringLength).value.1, AddNew(seen, ids[0]), ids[1..], end);
      assert forall x :: x in ids <==> x == ids[0] || x in ids[1..];
    }
  }

  /**
    The third attempt on a list of ids that ends the payload or is followed by an
    empty string: what it appends is exactly the set of those ids (each once, by
    the contract of `UnboundedAttempt`).
   */
  lemma UnboundedListCollectsIds(data: seq<byte>, start: nat, acc: seq<string>, ids: seq<string>)
    requires 1 <= |ids| && AllSendable(ids)
    requires HoldsAt(data, start, EncodeStrings(ids))
    requires start + |EncodeStrings(ids)| < |data| ==> data[start + |EncodeStrings(ids)|] == 0
    ensures forall x :: x in UnboundedAttempt(data, start, acc)[|acc|..] <==> x in ids
  {
    var end := start + |EncodeStrings(ids)|;
    EncodedStringsAreRead(data, start, ids, end);
    UnboundedAttemptReadsIds(data, start, acc, ids, end);
  }

  /** The third attempt on ids laid out as `StringsAt` describes and followed by the end or an empty string. */
  lemma UnboundedAttemptReadsIds(data: seq<byte>, start: nat, acc: seq<string>, ids: seq<string>, end: nat)
    requires start <= |data| && 1 <= |ids| && AllModIds(ids)
    requires StringsAt(data, start, ids, end)
    requires end == |data| || (end < |data| && data[end] == 0)
    ensures forall x :: x in UnboundedAttempt(data, start, acc)[|acc|..] <==> x in ids
  {
    UnboundedLoopReadsIds(data, start, [], ids, end);
    var deduplicated := UnboundedLoop(data, start, []).value;
    assert ids[0] in deduplicated;
    DropPrefix(acc, deduplicated);
  }

  /**
    A payload that fools the first attempt: version 1, count 2, the id "a" with
    the string "1" as its version, and nothing for the second entry. Read as a
    plain list it is a count of 1 and the one id "\U{1}a", which trims to "a".
   */
  const SharedPayload: seq<byte> := [1, 2, 1, 97, 1, 49]

  lemma SharedPayloadStrings()
    ensures ReadVarIntAt(SharedPayload, 0) == Some((1, 1))
    ensures ReadVarIntAt(SharedPayload, 1) == Some((2, 2))
    ensures ReadStringAt(SharedPayload, 1, MaxStringLength) == Some(("\U{1}a", 4))
    ensures ReadStringAt(SharedPayload, 2, MaxStringLength) == Some(("a", 4))
    ensures ReadStringAt(SharedPayload, 4, MaxStringLength) == Some(("1", 6))
    ensures ReadStringAt(SharedPayload, 6, MaxStringLength) == None
  {
    var data := SharedPayload;
    assert VarIntGroups(data, 2, 0) == Some((1, 3));
    assert VarIntGroups(data, 4, 0) == Some((1, 5));
    assert data[2..4] == [1, 97];
    assert data[3..4] == [97];
    assert data[5..6] == [49];
    assert DecodeChars([1, 97]) == "\U{1}a";
    assert DecodeChars([97]) == "a";
    assert DecodeChars([49]) == "1";
  }

  lemma SharedPayloadTrims()
    ensures Trim("a") == "a" && Trim("\U{1}a") == "a" && ToLowerAscii("a") == "a"
  {
    TrimmedIsFixed("a");
    LowerCaseIsFixed("a");
    assert TrimStart("\U{1}a") == TrimStart("a");
  }

  /** The first attempt reads "a" and its version, then throws on the missing second entry. */
  lemma SharedPayloadFirstAttempt()
    ensures VersionedAttempt(SharedPayload, 0) == FellThrough(["a"])
  {
    SharedPayloadStrings();
    SharedPayloadTrims();
    assert VersionedEntry(SharedPayload, 2) == Some(("a", 6));
    assert VersionedEntry(SharedPayload, 6) == None;
    assert Collect([], "a") == ["a"];
    assert VersionedLoop(SharedPayload, 6, 1, 2, ["a"]) == Threw(["a"]);
    assert VersionedLoop(SharedPayload, 2, 0, 2, []) == Threw(["a"]);
  }

  /**
    The list is shared between the attempts: on `SharedPayload` the first attempt
    appends "a" and then throws, and the second, reading the same bytes as a count
    and one id, appends "a" again, so the result holds "a" twice.
   */
  lemma SharedListKeepsPartialAttempt()
    ensures VersionedAttempt(SharedPayload, 0) == FellThrough(["a"])
    ensures ParseModList(SharedPayload, 0) == ["a", "a"]
  {
    SharedPayloadFirstAttempt();
    SharedPayloadStrings();
    SharedPayloadTrims();
    assert PlainEntry(SharedPayload, 1) == Some(("a", 4));
    assert Collect(["a"], "a") == ["a", "a"];
    assert PlainLoop(SharedPayload, 4, 1, 1, ["a", "a"]) == Completed(["a", "a"], 4);
    assert PlainLoop(SharedPayload, 1, 0, 1, ["a"]) == Completed(["a", "a"], 4);
    assert PlainAttempt(SharedPayload, 0, ["a"]) == Returned(["a", "a"]);
  }
}
