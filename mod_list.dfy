/**
  The Fabric mod-list login payload: the three-attempt parser
  `parseModListPayload` and the decision the login receiver takes on its result.
 */
module ModList {
  import opened Wrappers
  import opened Text
  import opened Wire

  /** The handshake versions the versioned-list attempt accepts. */
  const MinHandshakeVersion: int := 0
  const MaxHandshakeVersion: int := 5

  /** A mod id as the parser hands it out: non-empty, trimmed and lower-case. */
  predicate IsModId(id: string) {
    id != [] && IsTrimmed(id) && IsLowerCase(id)
  }

  predicate AllModIds(ids: seq<string>) {
    forall i :: 0 <= i < |ids| ==> IsModId(ids[i])
  }

  predicate NoDuplicates(ids: seq<string>) {
    forall i, j :: 0 <= i < j < |ids| ==> ids[i] != ids[j]
  }

  /** How a counted loop of the parser ends: normally, at a reader position, or by an exception. */
  datatype LoopEnd = Completed(acc: seq<string>, pos: nat) | Threw(acc: seq<string>)

  /** How an attempt ends: it returned the list, or it fell through to the next attempt leaving the list as it stands. */
  datatype Attempt = Returned(ids: seq<string>) | FellThrough(acc: seq<string>)

  lemma TrimmedIsModId(modId: string)
    requires IsTrimmed(modId) && modId != []
    ensures IsModId(ToLowerAscii(modId))
  {
    LowerTrimCommute(modId);
    TrimmedIsFixed(modId);
    LowerIsLowerCase(modId);
  }

  lemma AllModIdsAppend(ids: seq<string>, id: string)
    requires AllModIds(ids) && IsModId(id)
    ensures AllModIds(ids + [id])
  {
    forall i | 0 <= i < |ids + [id]|
      ensures IsModId((ids + [id])[i])
    {
      if i < |ids| {
        assert (ids + [id])[i] == ids[i];
      }
    }
  }

  /** `if (!modId.isEmpty()) modIds.add(modId.toLowerCase(Locale.ROOT))` for an id already trimmed. */
  function Collect(modIds: seq<string>, modId: string): (r: seq<string>)
    ensures modIds <= r && |r| <= |modIds| + 1
  {
    if modId == [] then modIds else modIds + [ToLowerAscii(modId)]
  }

  lemma CollectKeepsModIds(modIds: seq<string>, modId: string)
    requires AllModIds(modIds) && IsTrimmed(modId)
    ensures AllModIds(Collect(modIds, modId))
  {
    if modId != [] {
      TrimmedIsModId(modId);
      AllModIdsAppend(modIds, ToLowerAscii(modId));
    }
  }

  /**
    One entry of the versioned list: the trimmed id, then a version string that is
    read and dropped only when bytes remain after the id.
   */
  function VersionedEntry(data: seq<byte>, pos: nat): (r: Option<(string, nat)>)
    ensures r.Some? ==> pos < r.value.1 <= |data| && IsTrimmed(r.value.0)
  {
    match ReadStringAt(data, pos, MaxStringLength)
    case None => None
    case Some((raw, afterId)) =>
      var modId := Trim(raw);
      if afterId < |data| then
        match ReadStringAt(data, afterId, MaxStringLength)
        case None => None
        case Some((_, afterVersion)) => Some((modId, afterVersion))
      else Some((modId, afterId))
  }

  /** One entry of the plain list: a trimmed id and nothing else. */
  function PlainEntry(data: seq<byte>, pos: nat): (r: Option<(string, nat)>)
    ensures r.Some? ==> pos < r.value.1 <= |data| && IsTrimmed(r.value.0)
  {
    match ReadStringAt(data, pos, MaxStringLength)
    case None => None
    case Some((raw, next)) =>
      Some((Trim(raw), next))
  }

  /** The `for (int i = 0; i < modCount; i++)` loop of the first attempt, from iteration `i` on. */
  function VersionedLoop(data: seq<byte>, pos: nat, i: int, count: int, modIds: seq<string>): (r: LoopEnd)
    requires pos <= |data|
    ensures r.Completed? ==> r.pos <= |data|
    ensures modIds <= r.acc
    decreases count - i
  {
    if i >= count then Completed(modIds, pos)
    else
      match VersionedEntry(data, pos)
      case None => Threw(modIds)
      case Some((modId, next)) => VersionedLoop(data, next, i + 1, count, Collect(modIds, modId))
  }

  /** The counted loop of the second attempt, from iteration `i` on. */
  function PlainLoop(data: seq<byte>, pos: nat, i: int, count: int, modIds: seq<string>): (r: LoopEnd)
    requires pos <= |data|
    ensures r.Completed? ==> r.pos <= |data|
    ensures modIds <= r.acc
    decreases count - i
  {
    if i >= count then Completed(modIds, pos)
    else
      match PlainEntry(data, pos)
      case None => Threw(modIds)
      case Some((modId, next)) => PlainLoop(data, next, i + 1, count, Collect(modIds, modId))
  }

  /** `deduplicated.add(id)`, keeping the order in which ids were first seen. */
  function AddNew(seen: seq<string>, id: string): (r: seq<string>)
    ensures forall x :: x in r <==> x in seen || x == id
    ensures NoDuplicates(seen) ==> NoDuplicates(r)
  {
    if id in seen then seen else seen + [id]
  }

  /**
    The `while (buf.isReadable())` loop of the third attempt: the ids seen so far,
    or `None` when a read throws. It stops early at the first id that trims to empty.
   */
  function UnboundedLoop(data: seq<byte>, pos: nat, seen: seq<string>): (r: Option<seq<string>>)
    requires pos <= |data|
    ensures r.Some? ==> forall x :: x in seen ==> x in r.value
    ensures r.Some? && NoDuplicates(seen) ==> NoDuplicates(r.value)
    decreases |data| - pos
  {
    if pos >= |data| then Some(seen)
    else
      match ReadStringAt(data, pos, MaxStringLength)
      case None => None
      case Some((raw, next)) =>
        var modId := Trim(raw);
        if modId == [] then Some(seen)
        else
          UnboundedLoop(data, next, AddNew(seen, ToLowerAscii(modId)))
  }

  /** The end of a counted attempt: it returns the list only when its loop completed and the list is not empty. */
  function Finish(end: LoopEnd): (r: Attempt)
    ensures r.Returned? <==> end.Completed? && end.acc != []
    ensures r.Returned? ==> r.ids == end.acc
    ensures r.FellThrough? ==> r.acc == end.acc
  {
    match end
    case Threw(modIds) => FellThrough(modIds)
    case Completed(modIds, _) => if modIds != [] then Returned(modIds) else FellThrough(modIds)
  }

  /** First attempt: handshake version in [0, 5], a count, then (id, optional version) pairs. */
  function VersionedAttempt(data: seq<byte>, start: nat): (r: Attempt)
    requires start <= |data|
    ensures ReadVarIntAt(data, start).None? ==> r == FellThrough([])
    ensures ReadVarIntAt(data, start).Some? &&
            !(MinHandshakeVersion <= ReadVarIntAt(data, start).value.0 <= MaxHandshakeVersion) ==>
              r == FellThrough([])
  {
    match ReadVarIntAt(data, start)
    case None => FellThrough([])
    case Some((handshakeVersion, afterVersion)) =>
      if MinHandshakeVersion <= handshakeVersion <= MaxHandshakeVersion then
        match ReadVarIntAt(data, afterVersion)
        case None => FellThrough([])
        case Some((modCount, afterCount)) => Finish(VersionedLoop(data, afterCount, 0, modCount, []))
      else FellThrough([])
  }

  /** Second attempt, on the list the first one left behind: a count, then that many ids. */
  function PlainAttempt(data: seq<byte>, start: nat, modIds: seq<string>): (r: Attempt)
    requires start <= |data|
    ensures ReadVarIntAt(data, start).None? ==> r == FellThrough(modIds)
  {
    match ReadVarIntAt(data, start)
    case None => FellThrough(modIds)
    case Some((modCount, afterCount)) => Finish(PlainLoop(data, afterCount, 0, modCount, modIds))
  }

  /**
    Third attempt, on the list the second one left behind: the deduplicated ids are
    appended only when the loop ends without an exception.
   */
  function UnboundedAttempt(data: seq<byte>, start: nat, modIds: seq<string>): (r: seq<string>)
    requires start <= |data|
    ensures modIds <= r
    ensures NoDuplicates(r[|modIds|..])
  {
    match UnboundedLoop(data, start, [])
    case None => modIds
    case Some(deduplicated) =>
      assert (modIds + deduplicated)[|modIds|..] == deduplicated;
      if deduplicated != [] then modIds + deduplicated else modIds
  }

  /**
    `parseModListPayload` on the bytes from `start` on. The list is shared by the
    three attempts, so what an attempt appended before it threw stays in the list.
   */
  function ParseModList(data: seq<byte>, start: nat): (ids: seq<string>)
    requires start <= |data|
    ensures VersionedAttempt(data, start).FellThrough? ==> VersionedAttempt(data, start).acc <= ids
  {
    match VersionedAttempt(data, start)
    case Returned(ids) => ids
    case FellThrough(modIds) =>
      match PlainAttempt(data, start, modIds)
      case Returned(ids) => ids
      case FellThrough(modIds') => UnboundedAttempt(data, start, modIds')
  }

  /** One iteration's reads in the first attempt: `readString(...).trim()`, then a version string if bytes remain. */
  method ReadVersionedEntry(buf: PacketBuf) returns (modId: Option<string>)
    requires buf.Valid()
    modifies buf`readerIndex
    ensures buf.Valid()
    ensures VersionedEntry(buf.data, old(buf.readerIndex)) ==
            (if modId.None? then None else Some((modId.value, buf.readerIndex)))
  {
    var raw := buf.ReadString(MaxStringLength);
    if raw.None? {
      return None;
    }
    modId := Some(Trim(raw.value));
    if buf.IsReadable() {
      var version := buf.ReadString(MaxStringLength);
      if version.None? {
        modId := None;
      }
    }
  }

  /** One iteration's read in the second attempt: `readString(...).trim()`. */
  method ReadPlainEntry(buf: PacketBuf) returns (modId: Option<string>)
    requires buf.Valid()
    modifies buf`readerIndex
    ensures buf.Valid()
    ensures PlainEntry(buf.data, old(buf.readerIndex)) ==
            (if modId.None? then None else Some((modId.value, buf.readerIndex)))
  {
    var raw := buf.ReadString(MaxStringLength);
    if raw.None? {
      return None;
    }
    modId := Some(Trim(raw.value));
  }

  lemma AllModIdsConcat(a: seq<string>, b: seq<string>)
    requires AllModIds(a) && AllModIds(b)
    ensures AllModIds(a + b)
  {
    forall i | 0 <= i < |a + b|
      ensures IsModId((a + b)[i])
    {
      if i < |a| {
        assert (a + b)[i] == a[i];
      } else {
        assert (a + b)[i] == b[i - |a|];
      }
    }
  }

  /** The first attempt's loop only appends, and only mod ids. */
  lemma {:induction false} VersionedLoopKeepsModIds(data: seq<byte>, pos: nat, i: int, count: int, modIds: seq<string>)
    requires pos <= |data| && AllModIds(modIds)
    ensures modIds <= VersionedLoop(data, pos, i, count, modIds).acc
    ensures AllModIds(VersionedLoop(data, pos, i, count, modIds).acc)
    decreases count - i
  {
    if i < count {
      match VersionedEntry(data, pos)
      case None =>
      case Some((modId, next)) =>
        CollectKeepsModIds(modIds, modId);
        VersionedLoopKeepsModIds(data, next, i + 1, count, Collect(modIds, modId));
    }
  }

  /** The second attempt's loop only appends, and only mod ids. */
  lemma {:induction false} PlainLoopKeepsModIds(data: seq<byte>, pos: nat, i: int, count: int, modIds: seq<string>)
    requires pos <= |data| && AllModIds(modIds)
    ensures modIds <= PlainLoop(data, pos, i, count, modIds).acc
    ensures AllModIds(PlainLoop(data, pos, i, count, modIds).acc)
    decreases count - i
  {
    if i < count {
      match PlainEntry(data, pos)
      case None =>
      case Some((modId, next)) =>
        CollectKeepsModIds(modIds, modId);
        PlainLoopKeepsModIds(data, next, i + 1, count, Collect(modIds, modId));
    }
  }

  /** The third attempt's loop only collects mod ids. */
  lemma {:induction false} UnboundedLoopKeepsModIds(data: seq<byte>, pos: nat, seen: seq<string>)
    requires pos <= |data| && AllModIds(seen)
    ensures UnboundedLoop(data, pos, seen).Some? ==> AllModIds(UnboundedLoop(data, pos, seen).value)
    decreases |data| - pos
  {
    if pos < |data| {
      match ReadStringAt(data, pos, MaxStringLength)
      case None =>
      case Some((raw, next)) =>
        var modId := Trim(raw);
        if modId != [] {
          TrimmedIsModId(modId);
          var id := ToLowerAscii(modId);
          if id !in seen {
            AllModIdsAppend(seen, id);
          }
          UnboundedLoopKeepsModIds(data, next, AddNew(seen, id));
        }
    }
  }

  lemma VersionedAttemptKeepsModIds(data: seq<byte>, start: nat)
    requires start <= |data|
    ensures VersionedAttempt(data, start).Returned? ==> AllModIds(VersionedAttempt(data, start).ids)
    ensures VersionedAttempt(data, start).FellThrough? ==> AllModIds(VersionedAttempt(data, start).acc)
  {
    match ReadVarIntAt(data, start)
    case None =>
    case Some((_, afterVersion)) =>
      match ReadVarIntAt(data, afterVersion)
      case None =>
      case Some((modCount, afterCount)) =>
        VersionedLoopKeepsModIds(data, afterCount, 0, modCount, []);
  }

  lemma PlainAttemptKeepsModIds(data: seq<byte>, start: nat, modIds: seq<string>)
    requires start <= |data| && AllModIds(modIds)
    ensures PlainAttempt(data, start, modIds).Returned? ==>
              modIds <= PlainAttempt(data, start, modIds).ids && AllModIds(PlainAttempt(data, start, modIds).ids)
    ensures PlainAttempt(data, start, modIds).FellThrough? ==>
              modIds <= PlainAttempt(data, start, modIds).acc && AllModIds(PlainAttempt(data, start, modIds).acc)
  {
    match ReadVarIntAt(data, start)
    case None =>
    case Some((modCount, afterCount)) =>
      PlainLoopKeepsModIds(data, afterCount, 0, modCount, modIds);
  }

  lemma UnboundedAttemptKeepsModIds(data: seq<byte>, start: nat, modIds: seq<string>)
    requires start <= |data| && AllModIds(modIds)
    ensures AllModIds(UnboundedAttempt(data, start, modIds))
  {
    UnboundedLoopKeepsModIds(data, start, []);
    match UnboundedLoop(data, start, [])
    case None =>
    case Some(deduplicated) =>
      AllModIdsConcat(modIds, deduplicated);
  }

  /**
    Whatever path the parser takes, it hands out only non-empty, trimmed,
    lower-case ids, and what the first attempt appended before it gave up is
    still at the head of the result.
   */
  lemma ParseModListYieldsModIds(data: seq<byte>, start: nat)
    requires start <= |data|
    ensures AllModIds(ParseModList(data, start))
    ensures VersionedAttempt(data, start).FellThrough? ==>
              VersionedAttempt(data, start).acc <= ParseModList(data, start)
  {
    VersionedAttemptKeepsModIds(data, start);
    var first := VersionedAttempt(data, start);
    if first.FellThrough? {
      PlainAttemptKeepsModIds(data, start, first.acc);
      var second := PlainAttempt(data, start, first.acc);
      if second.FellThrough? {
        UnboundedAttemptKeepsModIds(data, start, second.acc);
      }
    }
  }

  /** One iteration of the first attempt's loop, seen from the entry it reads. */
  lemma VersionedLoopUnfold(data: seq<byte>, pos: nat, i: int, count: int, modIds: seq<string>)
    requires pos <= |data| && i < count
    ensures VersionedEntry(data, pos).None? ==> VersionedLoop(data, pos, i, count, modIds) == Threw(modIds)
    ensures VersionedEntry(data, pos).Some? ==>
              VersionedLoop(data, pos, i, count, modIds) ==
              VersionedLoop(data, VersionedEntry(data, pos).value.1, i + 1, count,
                            Collect(modIds, VersionedEntry(data, pos).value.0))
  {
  }

  /** One iteration of the second attempt's loop, seen from the id it reads. */
  lemma PlainLoopUnfold(data: seq<byte>, pos: nat, i: int, count: int, modIds: seq<string>)
    requires pos <= |data| && i < count
    ensures PlainEntry(data, pos).None? ==> PlainLoop(data, pos, i, count, modIds) == Threw(modIds)
    ensures PlainEntry(data, pos).Some? ==>
              PlainLoop(data, pos, i, count, modIds) ==
              PlainLoop(data, PlainEntry(data, pos).value.1, i + 1, count,
                        Collect(modIds, PlainEntry(data, pos).value.0))
  {
  }

  /** The first `try` block of `parseModListPayload`: the versioned list. */
  method TryVersionedList(buf: PacketBuf) returns (outcome: Attempt)
    requires buf.Valid()
    modifies buf`readerIndex
    ensures buf.Valid()
    ensures outcome == VersionedAttempt(buf.data, old(buf.readerIndex))
  {
    var handshakeVersion := buf.ReadVarInt();
    if handshakeVersion.None? {
      return FellThrough([]);
    }
    if !(MinHandshakeVersion <= handshakeVersion.value <= MaxHandshakeVersion) {
      return FellThrough([]);
    }
    var modCount := buf.ReadVarInt();
    if modCount.None? {
      return FellThrough([]);
    }
    outcome := VersionedIds(buf, modCount.value);
  }

  /** The `for` loop of the first attempt and the `return` after it. */
  method VersionedIds(buf: PacketBuf, modCount: int) returns (outcome: Attempt)
    requires buf.Valid()
    modifies buf`readerIndex
    ensures buf.Valid()
    ensures outcome == Finish(VersionedLoop(buf.data, old(buf.readerIndex), 0, modCount, []))
  {
    var modIds: seq<string> := [];
    ghost var loopEnd := VersionedLoop(buf.data, buf.readerIndex, 0, modCount, []);
    var i := 0;
    while i < modCount
      invariant buf.Valid()
      invariant VersionedLoop(buf.data, buf.readerIndex, i, modCount, modIds) == loopEnd
      decreases modCount - i
    {
      ghost var before := modIds;
      VersionedLoopUnfold(buf.data, buf.readerIndex, i, modCount, modIds);
      var modId := ReadVersionedEntry(buf);
      if modId.None? {
        return FellThrough(modIds);
      }
      if modId.value != [] {
        modIds := modIds + [ToLowerAscii(modId.value)];
      }
      assert modIds == Collect(before, modId.value);
      i := i + 1;
    }
    if modIds != [] {
      return Returned(modIds);
    }
    return FellThrough(modIds);
  }

  /** The second `try` block of `parseModListPayload`: the plain counted list, appending to `modIds`. */
  method TryPlainList(buf: PacketBuf, modIds0: seq<string>) returns (outcome: Attempt)
    requires buf.Valid()
    modifies buf`readerIndex
    ensures buf.Valid()
    ensures outcome == PlainAttempt(buf.data, old(buf.readerIndex), modIds0)
  {
    var modCount := buf.ReadVarInt();
    if modCount.None? {
      return FellThrough(modIds0);
    }
    outcome := PlainIds(buf, modCount.value, modIds0);
  }

  /** The `for` loop of the second attempt and the `return` after it. */
  method PlainIds(buf: PacketBuf, modCount: int, modIds0: seq<string>) returns (outcome: Attempt)
    requires buf.Valid()
    modifies buf`readerIndex
    ensures buf.Valid()
    ensures outcome == Finish(PlainLoop(buf.data, old(buf.readerIndex), 0, modCount, modIds0))
  {
    var modIds := modIds0;
    ghost var loopEnd := PlainLoop(buf.data, buf.readerIndex, 0, modCount, modIds);
    var i := 0;
    while i < modCount
      invariant buf.Valid()
      invariant PlainLoop(buf.data, buf.readerIndex, i, modCount, modIds) == loopEnd
      decreases modCount - i
    {
      ghost var before := modIds;
      PlainLoopUnfold(buf.data, buf.readerIndex, i, modCount, modIds);
      var modId := ReadPlainEntry(buf);
      if modId.None? {
        return FellThrough(modIds);
      }
      if modId.value != [] {
        modIds := modIds + [ToLowerAscii(modId.value)];
      }
      assert modIds == Collect(before, modId.value);
      i := i + 1;
    }
    if modIds != [] {
      return Returned(modIds);
    }
    return FellThrough(modIds);
  }

  /** The third `try` block of `parseModListPayload`: the unbounded, deduplicated list. */
  method TryUnboundedList(buf: PacketBuf, modIds0: seq<string>) returns (modIds: seq<string>)
    requires buf.Valid()
    modifies buf`readerIndex
    ensures buf.Valid()
    ensures modIds == UnboundedAttempt(buf.data, old(buf.readerIndex), modIds0)
  {
    modIds := modIds0;
    ghost var loopEnd := UnboundedLoop(buf.data, buf.readerIndex, []);
    var deduplicated: seq<string> := [];
    while buf.IsReadable()
      invariant buf.Valid()
      invariant UnboundedLoop(buf.data, buf.readerIndex, deduplicated) == loopEnd
      decreases |buf.data| - buf.readerIndex
    {
      ghost var pos := buf.readerIndex;
      var modId := buf.ReadString(MaxStringLength);
      if modId.None? {
        return;
      }
      var trimmed := Trim(modId.value);
      if trimmed == [] {
        break;
      }
      var lowered := ToLowerAscii(trimmed);
      assert UnboundedLoop(buf.data, pos, deduplicated) ==
             UnboundedLoop(buf.data, buf.readerIndex, AddNew(deduplicated, lowered));
      if lowered !in deduplicated {
        deduplicated := deduplicated + [lowered];
      }
    }
    assert loopEnd == Some(deduplicated);
    if deduplicated != [] {
      modIds := modIds + deduplicated;
    }
  }

  /**
    `parseModListPayload`: the three attempts in turn, each from the marked reader
    index, all appending to the one list `modIds`. It never fails.
   */
  method ParseModListPayload(buf: PacketBuf) returns (modIds: seq<string>)
    requires buf.Valid()
    modifies buf
    ensures modIds == ParseModList(buf.data, old(buf.readerIndex))
  {
    modIds := [];
    buf.MarkReaderIndex();
    var first := TryVersionedList(buf);
    match first {
      case Returned(ids) =>
        return ids;
      case FellThrough(acc) =>
        modIds := acc;
    }
    buf.ResetReaderIndex();
    var second := TryPlainList(buf, modIds);
    match second {
      case Returned(ids) =>
        return ids;
      case FellThrough(acc) =>
        modIds := acc;
    }
    buf.ResetReaderIndex();
    modIds := TryUnboundedList(buf, modIds);
  }

  /**
    The login receiver for the mod-list channels: `None` (the `null` handed to the
    tracker) when the query was not understood, the payload is missing or it parses
    to an empty list; otherwise the parsed list, from a copy of the readable bytes.
   */
  method ReceiveModList(understood: bool, buf: PacketBuf?) returns (reported: Option<seq<string>>)
    requires buf != null ==> buf.Valid()
    ensures reported.None? <==>
              !understood || buf == null || ParseModList(buf.data[buf.readerIndex..], 0) == []
    ensures reported.Some? ==> reported.value == ParseModList(buf.data[buf.readerIndex..], 0)
    ensures reported.Some? ==> reported.value != [] && AllModIds(reported.value)
  {
    if !understood || buf == null {
      return None;
    }
    var duplicate := new PacketBuf(buf.data[buf.readerIndex..]);
    ParseModListYieldsModIds(duplicate.data, 0);
    var modIds := ParseModListPayload(duplicate);
    if modIds == [] {
      return None;
    }
    return Some(modIds);
  }
}
