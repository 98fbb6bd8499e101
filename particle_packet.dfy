/**
  The legacy particle encoder that `ParticleS2CPacketMixin` hooks into
  `ParticleS2CPacket.write`. Output is a sequence of abstract tokens, one per
  `writeVarInt` / `writeBoolean` / `writeDouble` / `writeFloat` / `writeInt` /
  `writeBytes` call; coordinates are exact reals. The particle registry and
  `ParticleTypes.PACKET_CODEC` are not part of this model: each particle type
  carries its raw id and identifier, each effect the bytes the codec writes for
  it (or `None` where the codec throws), and the raw id of POOF is a parameter.
 */
module ParticlePacket {
  import opened Wrappers
  import opened Text
  import Wire
  import BrandTracker

  /** A face closer than this pulls a block-state particle onto it. */
  const SurfaceThreshold: real := 0.3

  /** Face distances within this of the nearest one count as tied. */
  const AxisEpsilon: real := 0.000001

  /** Identifier paths with this prefix are replaced by POOF. */
  const SuppressedPrefix: string := "falling_"

  datatype Identifier = Identifier(namespace: string, path: string)

  /** A particle type as the registry sees it: `getRawId`, and `getId` (`None` when unregistered). */
  datatype ParticleType = ParticleType(rawId: int, id: Option<Identifier>)

  /**
    A particle effect: its type, whether it is a `BlockStateParticleEffect`, and the
    bytes `PACKET_CODEC.encode` writes for it, `None` where that call throws.
   */
  datatype ParticleEffect = ParticleEffect(particleType: ParticleType, isBlockState: bool, codecBytes: Option<seq<Wire.byte>>)

  datatype Vec3 = Vec3(x: real, y: real, z: real)

  /** The packet's final fields; `parameters` is `None` where the field is `null`. */
  datatype ParticleFields = ParticleFields(
    position: Vec3, offset: Vec3, speed: real, count: int, forceSpawn: bool, parameters: Option<ParticleEffect>)

  /** One write call on the packet buffer. */
  datatype Token =
    | VarInt(varIntValue: int)
    | Bool(boolValue: bool)
    | Double(doubleValue: real)
    | Float(floatValue: real)
    | Int(intValue: int)
    | Raw(bytes: seq<Wire.byte>)

  /** How the `write` hook ends: the default write runs, it is cancelled, or an exception leaves it. */
  datatype HookOutcome = Proceed | Cancelled | Threw

  // ---------------------------------------------------------------- suppression

  /** `shouldSuppress`: a registered type whose identifier path starts with "falling_". */
  function ShouldSuppress(effect: ParticleEffect): (r: bool)
    ensures r <==> effect.particleType.id.Some? &&
                   |SuppressedPrefix| <= |effect.particleType.id.value.path| &&
                   effect.particleType.id.value.path[..|SuppressedPrefix|] == SuppressedPrefix
  {
    match effect.particleType.id
    case None => false
    case Some(id) => StartsWith(id.path, SuppressedPrefix)
  }

  /** What `writeSuppressed` writes: POOF at the original position, not forced, nothing else. */
  function SuppressedTokens(poofRawId: int, position: Vec3): (r: seq<Token>)
    ensures |r| == 10
    ensures ReadLegacyParticle(r) == Some(LegacyParticle(poofRawId, false, position, Vec3(0.0, 0.0, 0.0), 0.0, 0, None))
  {
    [VarInt(poofRawId), Bool(false), Double(position.x), Double(position.y), Double(position.z),
     Float(0.0), Float(0.0), Float(0.0), Float(0.0), Int(0)]
  }

  // ------------------------------------------------------------------ snapping

  /** `Math.min`. */
  function Min(a: real, b: real): (m: real)
    ensures m <= a && m <= b && (m == a || m == b)
  {
    if a <= b then a else b
  }

  /** `pos - Math.floor(pos)`. */
  function Fraction(r: real): (f: real)
    ensures 0.0 <= f < 1.0
    ensures r == r.Floor as real + f
  {
    r - r.Floor as real
  }

  /** `Math.min(fractional, 1 - fractional)`: how far the coordinate is from the nearer cell face. */
  function FaceDistance(r: real): (d: real)
    ensures 0.0 <= d <= 0.5
    ensures d == r - r.Floor as real || d == r.Floor as real + 1.0 - r
  {
    Min(Fraction(r), 1.0 - Fraction(r))
  }

  /** `base + (fractional < 0.5 ? 0 : 1)`: the coordinate moved onto the nearer cell face. */
  function Snap(r: real): (s: real)
    ensures s == r.Floor as real || s == r.Floor as real + 1.0
    ensures s - r == FaceDistance(r) || r - s == FaceDistance(r)
  {
    r.Floor as real + (if Fraction(r) < 0.5 then 0.0 else 1.0)
  }

  function NearestFace(p: Vec3): real {
    Min(FaceDistance(p.x), Min(FaceDistance(p.y), FaceDistance(p.z)))
  }

  datatype Axis = X | Y | Z

  /** How far the coordinate on `axis` is from the nearer face of its cell. */
  function AxisDistance(p: Vec3, axis: Axis): real {
    match axis
    case X => FaceDistance(p.x)
    case Y => FaceDistance(p.y)
    case Z => FaceDistance(p.z)
  }

  /** The axis `writeAlignedPosition` snaps, if any: the first of X, Y, Z within `AxisEpsilon` of the nearest face. */
  function SnappedAxis(p: Vec3): (r: Option<Axis>)
    ensures r.None? <==> NearestFace(p) > SurfaceThreshold
    ensures r.Some? ==> NearestFace(p) <= AxisDistance(p, r.value) <= NearestFace(p) + AxisEpsilon
  {
    var nearest := NearestFace(p);
    if nearest > SurfaceThreshold then None
    else if FaceDistance(p.x) <= nearest + AxisEpsilon then Some(X)
    else if FaceDistance(p.y) <= nearest + AxisEpsilon then Some(Y)
    else Some(Z)
  }

  /** The position `writeAlignedPosition` writes. */
  function AlignedPosition(p: Vec3, isBlockState: bool): (q: Vec3)
    ensures !isBlockState ==> q == p
  {
    if !isBlockState then p
    else
      match SnappedAxis(p)
      case None => p
      case Some(X) => p.(x := Snap(p.x))
      case Some(Y) => p.(y := Snap(p.y))
      case Some(Z) => p.(z := Snap(p.z))
  }

  function PositionTokens(p: Vec3): seq<Token> {
    [Double(p.x), Double(p.y), Double(p.z)]
  }

  /** The snapped axis is one whose face is within `AxisEpsilon` of the nearest, and the axes before it are not. */
  lemma SnappedAxisIsNearest(p: Vec3)
    ensures SnappedAxis(p).None? <==> NearestFace(p) > SurfaceThreshold
    ensures SnappedAxis(p) == Some(X) ==> FaceDistance(p.x) <= NearestFace(p) + AxisEpsilon
    ensures SnappedAxis(p) == Some(Y) ==>
              FaceDistance(p.x) > NearestFace(p) + AxisEpsilon && FaceDistance(p.y) <= NearestFace(p) + AxisEpsilon
    ensures SnappedAxis(p) == Some(Z) ==>
              FaceDistance(p.x) > NearestFace(p) + AxisEpsilon && FaceDistance(p.y) > NearestFace(p) + AxisEpsilon &&
              FaceDistance(p.z) == NearestFace(p)
  {
  }

  /** Snapping moves at most one coordinate. */
  lemma AlignedMovesOneAxis(p: Vec3, isBlockState: bool)
    ensures var q := AlignedPosition(p, isBlockState);
            (q.y == p.y && q.z == p.z) || (q.x == p.x && q.z == p.z) || (q.x == p.x && q.y == p.y)
  {
  }

  /** A moved coordinate lands on a face of its cell and travels at most `SurfaceThreshold + AxisEpsilon`. */
  lemma AlignedLandsOnFace(p: Vec3, isBlockState: bool)
    ensures var q := AlignedPosition(p, isBlockState);
            (q.x != p.x ==> (q.x == p.x.Floor as real || q.x == p.x.Floor as real + 1.0) &&
                            -SurfaceThreshold - AxisEpsilon <= q.x - p.x <= SurfaceThreshold + AxisEpsilon) &&
            (q.y != p.y ==> (q.y == p.y.Floor as real || q.y == p.y.Floor as real + 1.0) &&
                            -SurfaceThreshold - AxisEpsilon <= q.y - p.y <= SurfaceThreshold + AxisEpsilon) &&
            (q.z != p.z ==> (q.z == p.z.Floor as real || q.z == p.z.Floor as real + 1.0) &&
                            -SurfaceThreshold - AxisEpsilon <= q.z - p.z <= SurfaceThreshold + AxisEpsilon)
  {
    SnappedAxisIsNearest(p);
  }

  /** A position farther than `SurfaceThreshold` from every face is written as it is. */
  lemma FarFromFacesUnchanged(p: Vec3, isBlockState: bool)
    requires NearestFace(p) > SurfaceThreshold
    ensures AlignedPosition(p, isBlockState) == p
  {
  }

  /** X is snapped whenever its face is (within `AxisEpsilon`) the nearest and near enough. */
  lemma XWinsTies(p: Vec3)
    requires NearestFace(p) <= SurfaceThreshold
    requires FaceDistance(p.x) <= NearestFace(p) + AxisEpsilon
    ensures AlignedPosition(p, true) == p.(x := Snap(p.x))
  {
  }

  /** (10.05, 5.5, 3.5) is 0.05 from an X face and 0.5 from the others: X snaps down to 10. */
  lemma SnapExample()
    ensures AlignedPosition(Vec3(10.05, 5.5, 3.5), true) == Vec3(10.0, 5.5, 3.5)
  {
    var p := Vec3(10.05, 5.5, 3.5);
    assert p.x.Floor == 10 && p.y.Floor == 5 && p.z.Floor == 3;
    assert FaceDistance(p.x) == 0.05;
    assert FaceDistance(p.y) == 0.5 && FaceDistance(p.z) == 0.5;
    assert SnappedAxis(p) == Some(X);
  }

  // ------------------------------------------------------------------ encoding

  /**
    What `writeLegacy` writes, or `None` where the codec throws: nothing without
    parameters, the POOF stand-in for suppressed types, otherwise the legacy layout
    with the codec's bytes as its tail.
   */
  function LegacyEncoding(fields: ParticleFields, poofRawId: int): (r: Option<seq<Token>>)
    ensures fields.parameters.None? ==> r == Some([])
    ensures r.None? <==> fields.parameters.Some? && !ShouldSuppress(fields.parameters.value) &&
                         fields.parameters.value.codecBytes.None?
  {
    match fields.parameters
    case None => Some([])
    case Some(effect) =>
      if ShouldSuppress(effect) then Some(SuppressedTokens(poofRawId, fields.position))
      else
        match effect.codecBytes
        case None => None
        case Some(tail) =>
          Some([VarInt(effect.particleType.rawId), Bool(fields.forceSpawn)] +
               PositionTokens(AlignedPosition(fields.position, effect.isBlockState)) +
               [Float(fields.offset.x), Float(fields.offset.y), Float(fields.offset.z),
                Float(fields.speed), Int(fields.count), Raw(tail)])
  }

  /** A particle packet as the legacy layout carries it; `tail` is `None` when no parameter bytes follow. */
  datatype LegacyParticle = LegacyParticle(
    typeId: int, forceSpawn: bool, position: Vec3, offset: Vec3, speed: real, count: int, tail: Option<seq<Wire.byte>>)

  /**
    The legacy layout read back: type id, force flag, three doubles, four floats,
    an int, then the parameter bytes, which may be absent.
   */
  function ReadLegacyParticle(tokens: seq<Token>): Option<LegacyParticle> {
    if |tokens| != 10 && |tokens| != 11 then None
    else if !(tokens[0].VarInt? && tokens[1].Bool? && tokens[2].Double? && tokens[3].Double? && tokens[4].Double? &&
              tokens[5].Float? && tokens[6].Float? && tokens[7].Float? && tokens[8].Float? && tokens[9].Int?) then None
    else if |tokens| == 11 && !tokens[10].Raw? then None
    else
      Some(LegacyParticle(
        tokens[0].varIntValue, tokens[1].boolValue,
        Vec3(tokens[2].doubleValue, tokens[3].doubleValue, tokens[4].doubleValue),
        Vec3(tokens[5].floatValue, tokens[6].floatValue, tokens[7].floatValue),
        tokens[8].floatValue, tokens[9].intValue,
        if |tokens| == 11 then Some(tokens[10].bytes) else None))
  }

  /**
    A type that is not suppressed is read back with its own id, force flag,
    offsets, speed, count and codec bytes, at the aligned position.
   */
  lemma LegacyRoundTrip(fields: ParticleFields, poofRawId: int)
    requires fields.parameters.Some? && !ShouldSuppress(fields.parameters.value)
    requires fields.parameters.value.codecBytes.Some?
    ensures LegacyEncoding(fields, poofRawId).Some?
    ensures var effect := fields.parameters.value;
            ReadLegacyParticle(LegacyEncoding(fields, poofRawId).value) ==
            Some(LegacyParticle(effect.particleType.rawId, fields.forceSpawn,
                                AlignedPosition(fields.position, effect.isBlockState),
                                fields.offset, fields.speed, fields.count, effect.codecBytes))
  {
  }

  /** A suppressed type is read back as POOF at the original position with everything else zero and no tail at all. */
  lemma SuppressedRoundTrip(fields: ParticleFields, poofRawId: int)
    requires fields.parameters.Some? && ShouldSuppress(fields.parameters.value)
    ensures LegacyEncoding(fields, poofRawId).Some?
    ensures ReadLegacyParticle(LegacyEncoding(fields, poofRawId).value) ==
            Some(LegacyParticle(poofRawId, false, fields.position, Vec3(0.0, 0.0, 0.0), 0.0, 0, None))
  {
  }

  /** "falling_dust" is suppressed, "dust" and unregistered types are not. */
  lemma SuppressionExamples(rawId: int, isBlockState: bool, codecBytes: Option<seq<Wire.byte>>)
    ensures ShouldSuppress(ParticleEffect(ParticleType(rawId, Some(Identifier("minecraft", "falling_dust"))), isBlockState, codecBytes))
    ensures !ShouldSuppress(ParticleEffect(ParticleType(rawId, Some(Identifier("minecraft", "dust"))), isBlockState, codecBytes))
    ensures !ShouldSuppress(ParticleEffect(ParticleType(rawId, None), isBlockState, codecBytes))
  {
    assert "falling_dust"[..8] == SuppressedPrefix;
  }

  // ------------------------------------------------------------------- objects

  /** The `RegistryByteBuf` the packet is written to, as the tokens written so far. */
  class PacketWriter {
    var written: seq<Token>

    constructor ()
      ensures written == []
    {
      written := [];
    }

    method Write(token: Token)
      modifies this
      ensures written == old(written) + [token]
    {
      written := written + [token];
    }
  }

  /** `ParticleS2CPacket` with the mixin's connection field. */
  class ParticleS2CPacket {
    const x: real
    const y: real
    const z: real
    const offsetX: real
    const offsetY: real
    const offsetZ: real
    const speed: real
    const count: int
    const forceSpawn: bool
    const parameters: Option<ParticleEffect>
    var connection: BrandTracker.ClientConnection?

    constructor (fields: ParticleFields)
      ensures Fields() == fields && connection == null
    {
      x, y, z := fields.position.x, fields.position.y, fields.position.z;
      offsetX, offsetY, offsetZ := fields.offset.x, fields.offset.y, fields.offset.z;
      speed, count, forceSpawn := fields.speed, fields.count, fields.forceSpawn;
      parameters := fields.parameters;
      connection := null;
    }

    function Fields(): ParticleFields {
      ParticleFields(Vec3(x, y, z), Vec3(offsetX, offsetY, offsetZ), speed, count, forceSpawn, parameters)
    }

    method SetConnection(connection: BrandTracker.ClientConnection?)
      modifies this`connection
      ensures this.connection == connection
    {
      this.connection := connection;
    }

    /**
      The hook at the head of `write`: for a legacy connection the legacy bytes are
      written and the default write is cancelled; a codec failure leaves the hook
      by an exception, before anything is written and before the cancel.
     */
    method WriteLegacyWhenNeeded(out: PacketWriter, tracker: BrandTracker.ViaBrandTracker, poofRawId: int)
      returns (outcome: HookOutcome)
      modifies out
      ensures !BrandTracker.LegacyDecision(tracker.brands, connection) ==>
                outcome == Proceed && out.written == old(out.written)
      ensures BrandTracker.LegacyDecision(tracker.brands, connection) &&
              LegacyEncoding(Fields(), poofRawId).Some? ==>
                outcome == Cancelled && out.written == old(out.written) + LegacyEncoding(Fields(), poofRawId).value
      ensures BrandTracker.LegacyDecision(tracker.brands, connection) &&
              LegacyEncoding(Fields(), poofRawId).None? ==>
                outcome == Threw && out.written == old(out.written)
    {
      var legacy := tracker.ShouldUseLegacyParticles(connection);
      if legacy {
        var completed := WriteLegacy(out, poofRawId);
        if !completed {
          return Threw;
        }
        return Cancelled;
      }
      return Proceed;
    }

    /** `writeLegacy`; `completed` is false where the codec throws. */
    method WriteLegacy(out: PacketWriter, poofRawId: int) returns (completed: bool)
      modifies out
      ensures completed == LegacyEncoding(Fields(), poofRawId).Some?
      ensures out.written == old(out.written) + (if completed then LegacyEncoding(Fields(), poofRawId).value else [])
    {
      if parameters.None? {
        return true;
      }
      var effect := parameters.value;
      if ShouldSuppress(effect) {
        WriteSuppressed(out, poofRawId);
        return true;
      }
      if effect.codecBytes.None? {
        return false;
      }
      var encoded := effect.codecBytes.value;
      out.Write(VarInt(effect.particleType.rawId));
      out.Write(Bool(forceSpawn));
      WriteAlignedPosition(out, effect);
      out.Write(Float(offsetX));
      out.Write(Float(offsetY));
      out.Write(Float(offsetZ));
      out.Write(Float(speed));
      out.Write(Int(count));
      out.Write(Raw(encoded));
      return true;
    }

    method WriteSuppressed(out: PacketWriter, poofRawId: int)
      modifies out
      ensures out.written == old(out.written) + SuppressedTokens(poofRawId, Vec3(x, y, z))
    {
      out.Write(VarInt(poofRawId));
      out.Write(Bool(false));
      out.Write(Double(x));
      out.Write(Double(y));
      out.Write(Double(z));
      out.Write(Float(0.0));
      out.Write(Float(0.0));
      out.Write(Float(0.0));
      out.Write(Float(0.0));
      out.Write(Int(0));
    }

    method WriteAlignedPosition(out: PacketWriter, effect: ParticleEffect)
      modifies out
      ensures out.written == old(out.written) + PositionTokens(AlignedPosition(Vec3(x, y, z), effect.isBlockState))
    {
      if !effect.isBlockState {
        out.Write(Double(x));
        out.Write(Double(y));
        out.Write(Double(z));
        return;
      }
      var posX, posY, posZ := x, y, z;
      var baseX, baseY, baseZ := posX.Floor as real, posY.Floor as real, posZ.Floor as real;
      var fractionalX, fractionalY, fractionalZ := posX - baseX, posY - baseY, posZ - baseZ;
      var distanceX := Min(fractionalX, 1.0 - fractionalX);
      var distanceY := Min(fractionalY, 1.0 - fractionalY);
      var distanceZ := Min(fractionalZ, 1.0 - fractionalZ);
      var nearest := Min(distanceX, Min(distanceY, distanceZ));
      assert distanceX == FaceDistance(x) && distanceY == FaceDistance(y) && distanceZ == FaceDistance(z);
      assert nearest == NearestFace(Vec3(x, y, z));
      if nearest <= SurfaceThreshold {
        if distanceX <= nearest + AxisEpsilon {
          posX := baseX + (if fractionalX < 0.5 then 0.0 else 1.0);
        } else if distanceY <= nearest + AxisEpsilon {
          posY := baseY + (if fractionalY < 0.5 then 0.0 else 1.0);
        } else {
          posZ := baseZ + (if fractionalZ < 0.5 then 0.0 else 1.0);
        }
      }
      out.Write(Double(posX));
      out.Write(Double(posY));
      out.Write(Double(posZ));
    }
  }
}
