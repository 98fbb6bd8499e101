/**
  `ViaBrandTracker`: the brand each client connection announced, and the one
  decision drawn from it, whether the connection gets legacy particle packets.
  The static `BRANDS` map becomes the `brands` field of a tracker object; Java's
  `null` connection is `null` of `ClientConnection?` and a `null` brand is `None`.
 */
module BrandTracker {
  import opened Wrappers
  import opened Text

  /** A client connection; the tracker compares connections by identity. */
  class ClientConnection {
    constructor ()
    {
    }
  }

  /** The brand `trim().toLowerCase(Locale.ROOT)` leaves. */
  function NormalizeBrand(brand: string): (r: string)
    ensures |r| <= |brand| && IsLowerCase(r)
    ensures r == [] <==> AllTrimmable(brand)
  {
    ToLowerAscii(Trim(brand))
  }

  /**
    The decision for a stored brand: an empty normalized brand is refused, any
    other one asks for legacy particles when "via" occurs anywhere in it.
   */
  function BrandWantsLegacy(brand: string): (r: bool)
    ensures r <==> Occurs(NormalizeBrand(brand), "via")
    ensures AllTrimmable(brand) ==> !r
  {
    var normalized := NormalizeBrand(brand);
    ContainsIffOccurs(normalized, "via");
    if normalized == [] then false else Contains(normalized, "via")
  }

  /** The brands after `setBrand(connection, brand)`. */
  function BrandsAfterSet(brands: map<ClientConnection, string>, connection: ClientConnection?, brand: Option<string>)
    : (r: map<ClientConnection, string>)
    ensures connection == null ==> r == brands
    ensures connection != null && brand.None? ==> connection !in r
    ensures connection != null && brand.Some? ==> connection in r && r[connection] == brand.value
    ensures forall c | c in brands && c != connection :: c in r && r[c] == brands[c]
    ensures forall c | c in r && c != connection :: c in brands
  {
    if connection == null then brands
    else if brand.None? then brands - {connection}
    else brands[connection := brand.value]
  }

  /** `shouldUseLegacyParticles` over a map of brands. */
  function LegacyDecision(brands: map<ClientConnection, string>, connection: ClientConnection?): (r: bool)
    ensures r <==> connection != null && connection in brands && Occurs(NormalizeBrand(brands[connection]), "via")
  {
    connection != null && connection in brands && BrandWantsLegacy(brands[connection])
  }

  class ViaBrandTracker {
    var brands: map<ClientConnection, string>

    constructor ()
      ensures brands == map[]
    {
      brands := map[];
    }

    /** A `null` connection is ignored, a `null` brand removes the entry, any other brand replaces it. */
    method SetBrand(connection: ClientConnection?, brand: Option<string>)
      modifies this
      ensures brands == BrandsAfterSet(old(brands), connection, brand)
    {
      if connection == null {
        return;
      }
      if brand.None? {
        brands := brands - {connection};
        return;
      }
      brands := brands[connection := brand.value];
    }

    /** Legacy particles for a known connection whose trimmed, lower-cased brand contains "via". */
    method ShouldUseLegacyParticles(connection: ClientConnection?) returns (r: bool)
      ensures r <==> connection != null && connection in brands && Occurs(NormalizeBrand(brands[connection]), "via")
      ensures r == LegacyDecision(brands, connection)
    {
      if connection == null {
        return false;
      }
      if connection !in brands {
        return false;
      }
      var brand := brands[connection];
      var normalized := ToLowerAscii(Trim(brand));
      if normalized == [] {
        return false;
      }
      r := Contains(normalized, "via");
      ContainsIffOccurs(normalized, "via");
    }
  }

  /** Setting the same brand twice is the same as setting it once. */
  lemma SetBrandIdempotent(brands: map<ClientConnection, string>, connection: ClientConnection?, brand: Option<string>)
    ensures BrandsAfterSet(BrandsAfterSet(brands, connection, brand), connection, brand) ==
            BrandsAfterSet(brands, connection, brand)
  {
    var once := BrandsAfterSet(brands, connection, brand);
    var twice := BrandsAfterSet(once, connection, brand);
    assert forall c | c in twice :: c in once;
  }

  /**
    The query right after `setBrand`: the connection just set answers from the new
    brand alone (never after a removal), every other connection as before.
   */
  lemma LegacyAfterSet(brands: map<ClientConnection, string>, connection: ClientConnection?, brand: Option<string>,
                       other: ClientConnection?)
    ensures LegacyDecision(BrandsAfterSet(brands, connection, brand), other) ==
            if other == connection && connection != null then brand.Some? && BrandWantsLegacy(brand.value)
            else LegacyDecision(brands, other)
  {
  }

  /** The decision does not depend on letter case. */
  lemma LegacyIgnoresCase(a: string, b: string)
    requires ToLowerAscii(a) == ToLowerAscii(b)
    ensures BrandWantsLegacy(a) == BrandWantsLegacy(b)
  {
    LowerTrimCommute(a);
    LowerTrimCommute(b);
  }

  /** The decision does not depend on blanks around the brand. */
  lemma LegacyIgnoresPadding(pre: string, brand: string, post: string)
    requires AllTrimmable(pre) && AllTrimmable(post)
    ensures BrandWantsLegacy(pre + brand + post) == BrandWantsLegacy(brand)
  {
    TrimIgnoresPadding(pre, brand, post);
  }

  /** "via" may open the brand, in any case and padded with blanks. */
  lemma PaddedViaBrandWantsLegacy()
    ensures BrandWantsLegacy(" ViaFabric ")
  {
    ViaAnywhereWantsLegacy(" ViaFabric ", 1);
  }

  /** "via" in any case anywhere in the brand survives `trim`, so the brand asks for legacy particles. */
  lemma ViaAnywhereWantsLegacy(brand: string, i: nat)
    requires i + 3 <= |brand|
    requires LowerChar(brand[i]) == 'v' && LowerChar(brand[i + 1]) == 'i' && LowerChar(brand[i + 2]) == 'a'
    ensures BrandWantsLegacy(brand)
  {
    ViaSurvivesNormalizing(brand, i);
  }

  /** The three chars survive `trim` (none of them is blank) and lower-case to "via". */
  lemma ViaSurvivesNormalizing(brand: string, i: nat)
    requires i + 3 <= |brand|
    requires LowerChar(brand[i]) == 'v' && LowerChar(brand[i + 1]) == 'i' && LowerChar(brand[i + 2]) == 'a'
    ensures Occurs(NormalizeBrand(brand), "via")
  {
    var k := TrimIsSlice(brand);
    var trimmed := Trim(brand);
    assert !IsTrimmable(brand[i]) && !IsTrimmable(brand[i + 2]);
    ViaInRun(trimmed, brand, k, i);
  }

  /** "via" spelled at `i` in `brand` is spelled at `i - k` in a run of it copied from `k` on, once lower-cased. */
  lemma ViaInRun(run: string, brand: string, k: nat, i: nat)
    requires k <= i && i + 3 <= k + |run| && k + |run| <= |brand|
    requires forall j :: 0 <= j < |run| ==> run[j] == brand[k + j]
    requires LowerChar(brand[i]) == 'v' && LowerChar(brand[i + 1]) == 'i' && LowerChar(brand[i + 2]) == 'a'
    ensures OccursAt(ToLowerAscii(run), "via", i - k)
  {
    var lowered := ToLowerAscii(run);
    var j := i - k;
    assert run[j] == brand[i] && run[j + 1] == brand[i + 1] && run[j + 2] == brand[i + 2];
    assert lowered[j..j + 3] == [lowered[j], lowered[j + 1], lowered[j + 2]];
  }

  /** "via" may also close the brand: the test is a substring test, not a prefix test. */
  lemma TrailingViaWantsLegacy()
    ensures BrandWantsLegacy("fabric-VIA")
  {
    ViaAnywhereWantsLegacy("fabric-VIA", 7);
  }

  /** A brand in which no 'v' is followed by an 'i', in either case, keeps the modern packets. */
  lemma BrandWithoutViKeepsModern(brand: string)
    requires forall i :: 0 <= i < |brand| - 1 ==> !(LowerChar(brand[i]) == 'v' && LowerChar(brand[i + 1]) == 'i')
    ensures !BrandWantsLegacy(brand)
  {
    var k := TrimIsSlice(brand);
    NoViInRun(Trim(brand), brand, k);
  }

  /** A run copied from `brand` has no "vi", hence no "via", once lower-cased. */
  lemma NoViInRun(run: string, brand: string, k: nat)
    requires k + |run| <= |brand|
    requires forall j :: 0 <= j < |run| ==> run[j] == brand[k + j]
    requires forall i :: 0 <= i < |brand| - 1 ==> !(LowerChar(brand[i]) == 'v' && LowerChar(brand[i + 1]) == 'i')
    ensures !Occurs(ToLowerAscii(run), "via")
  {
    var lowered := ToLowerAscii(run);
    forall i | 0 <= i < |lowered| - 1
      ensures !(lowered[i] == "via"[0] && lowered[i + 1] == "via"[1])
    {
      assert run[i] == brand[k + i] && run[i + 1] == brand[k + i + 1];
    }
    NoOccurrenceWithoutPair(lowered, "via");
  }

  /** Minecraft's own brand keeps the modern packets. */
  lemma VanillaKeepsModern()
    ensures !BrandWantsLegacy("vanilla")
  {
    VanillaHasNoVi();
    BrandWithoutViKeepsModern("vanilla");
  }

  /** The chars of "vanilla", pair by pair: the one 'v' is followed by an 'a'. */
  lemma VanillaHasNoVi()
    ensures forall i :: 0 <= i < |"vanilla"| - 1 ==> !(LowerChar("vanilla"[i]) == 'v' && LowerChar("vanilla"[i + 1]) == 'i')
  {
  }

  /** A blank brand keeps the modern packets. */
  lemma BlankBrandKeepsModern()
    ensures !BrandWantsLegacy("   ")
  {
  }
}
