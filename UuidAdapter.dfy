/**
 * The protobuf adapter for java.util.UUID.
 *
 * A UUID is a 128-bit identifier held as two 64-bit halves. On the wire it is
 * a message with two generations of field layout:
 *   - legacy:  field 1 (most-significant half) and field 2 (least-significant
 *              half), both UINT64, written by older producers only;
 *   - current: field 3 (most-significant half) and field 4 (least-significant
 *              half), both FIXED64 with default value 0, always written.
 * The decoder picks the layout by the presence of field 1.
 *
 * Signedness does not arise: a Java `long` and a UINT64 are the same 64 bits,
 * so every half is a `bv64`. Bytes on the wire are not modelled; a message is
 * the four optional field values the marshaller hands to, or takes from, the
 * adapter.
 */
module UUIDAdapter {
  import opened Wrappers

  /** A java.util.UUID: its most- and least-significant 64 bits. */
  datatype Uuid = Uuid(mostSigBits: bv64, leastSigBits: bv64)

  /** Why a message does not decode to a UUID. */
  datatype Error =
      /** Field 1 is present but field 2 is not: the factory passes a null
          `Long` to `new UUID(long, long)`, whose unboxing throws. */
      MalformedLegacyPair

  /** The four optional fields of the UUID message; `None` is an absent field. */
  datatype WireFields = WireFields(
    mostSigBits: Option<bv64>,        // field 1, UINT64
    leastSigBits: Option<bv64>,       // field 2, UINT64
    mostSigBitsFixed: Option<bv64>,   // field 3, FIXED64, default 0
    leastSigBitsFixed: Option<bv64>)  // field 4, FIXED64, default 0

  /** The declared default of the FIXED64 fields 3 and 4. */
  const FixedDefault: bv64 := 0

  /** The value the marshaller hands to the factory for a FIXED64 field. */
  function FixedOrDefault(field: Option<bv64>): bv64 {
    field.GetOr(FixedDefault)
  }

  // ---------------------------------------------------------------------------
  // Encoding: the four getters
  // ---------------------------------------------------------------------------

  /**
   * The message the marshaller writes for `u`: the two legacy getters return
   * null, the two fixed getters return the halves of `u`.
   */
  function Encode(u: Uuid): (w: WireFields)
    ensures w.mostSigBits.None? && w.leastSigBits.None?
    ensures w.mostSigBitsFixed == Some(u.mostSigBits)
    ensures w.leastSigBitsFixed == Some(u.leastSigBits)
  {
    WireFields(None, None, Some(u.mostSigBits), Some(u.leastSigBits))
  }

  /**
   * A message as an older producer wrote it: only the legacy fields.
   * The adapter no longer writes this; its decoder must still accept it.
   */
  function EncodeLegacy(u: Uuid): WireFields {
    WireFields(Some(u.mostSigBits), Some(u.leastSigBits), None, None)
  }

  // ---------------------------------------------------------------------------
  // Decoding: the factory
  // ---------------------------------------------------------------------------

  /**
   * The factory `create`. The legacy halves arrive as nullable `Long`s, the
   * fixed halves already carry their default. An absent field 1 selects the
   * fixed halves; otherwise the legacy pair is used, and an absent field 2
   * then fails.
   */
  function Create(mostSigBits: Option<bv64>, leastSigBits: Option<bv64>,
                  mostSigBitsFixed: bv64, leastSigBitsFixed: bv64): (r: Result<Uuid, Error>)
    ensures r.Failure? <==> mostSigBits.Some? && leastSigBits.None?
    ensures mostSigBits.None? ==> r == Success(Uuid(mostSigBitsFixed, leastSigBitsFixed))
    ensures r.Success? && mostSigBits.Some? ==>
              Some(r.value.mostSigBits) == mostSigBits && Some(r.value.leastSigBits) == leastSigBits
  {
    if mostSigBits.None? then
      Success(Uuid(mostSigBitsFixed, leastSigBitsFixed))
    else if leastSigBits.None? then
      Failure(MalformedLegacyPair)
    else
      Success(Uuid(mostSigBits.value, leastSigBits.value))
  }

  /** Decoding a message: the fixed fields take their default, then `create`. */
  function Decode(w: WireFields): (r: Result<Uuid, Error>)
    ensures r == ToUuid(LayoutOf(w))
  {
    Create(w.mostSigBits, w.leastSigBits,
           FixedOrDefault(w.mostSigBitsFixed), FixedOrDefault(w.leastSigBitsFixed))
  }

  // ---------------------------------------------------------------------------
  // Reference decoder: an explicit tagged layout derived from field presence
  // ---------------------------------------------------------------------------

  /** The layout a message is read in, with the halves it supplies. */
  datatype Layout =
    | Legacy(most: bv64, least: bv64)
    | Current(most: bv64, least: bv64)

  /** The layout of a message, or an error when the legacy pair is partial. */
  function LayoutOf(w: WireFields): Result<Layout, Error> {
    match (w.mostSigBits, w.leastSigBits)
    case (Some(m), Some(l)) => Success(Legacy(m, l))
    case (Some(_), None) => Failure(MalformedLegacyPair)
    case (None, _) => Success(Current(FixedOrDefault(w.mostSigBitsFixed),
                                      FixedOrDefault(w.leastSigBitsFixed)))
  }

  /** Both layouts mean the same thing: a UUID made of the two halves. */
  function ToUuid(layout: Result<Layout, Error>): Result<Uuid, Error> {
    match layout
    case Success(Legacy(m, l)) => Success(Uuid(m, l))
    case Success(Current(m, l)) => Success(Uuid(m, l))
    case Failure(e) => Failure(e)
  }

  // ---------------------------------------------------------------------------
  // Properties
  // ---------------------------------------------------------------------------

  /** Decoding what the adapter writes gives back the UUID, for every UUID. */
  lemma RoundTrip(u: Uuid)
    ensures Decode(Encode(u)) == Success(u)
  {
  }

  /** Messages from older producers decode to the UUID they were written for. */
  lemma LegacyRoundTrip(u: Uuid)
    ensures Decode(EncodeLegacy(u)) == Success(u)
  {
  }

  /** Legacy (m, l) and current (m, l) decode to the same UUID. */
  lemma LayoutIndependence(m: bv64, l: bv64)
    ensures Decode(WireFields(Some(m), Some(l), None, None))
         == Decode(WireFields(None, None, Some(m), Some(l)))
         == Success(Uuid(m, l))
  {
  }

  /** Decoding is injective on what the adapter writes. */
  lemma EncodeInjective(u: Uuid, v: Uuid)
    ensures Encode(u) == Encode(v) ==> u == v
  {
  }

  /** Without field 1, only fields 3 and 4 matter: field 2 is ignored. */
  lemma IgnoresLegacyLeastWithoutLegacyMost(w: WireFields, leastSigBits: Option<bv64>)
    requires w.mostSigBits.None?
    ensures Decode(w) == Decode(w.(leastSigBits := leastSigBits))
    ensures Decode(w) == Success(Uuid(FixedOrDefault(w.mostSigBitsFixed),
                                      FixedOrDefault(w.leastSigBitsFixed)))
  {
  }

  /** With field 1, only fields 1 and 2 matter: fields 3 and 4 are ignored. */
  lemma IgnoresFixedWithLegacyMost(w: WireFields, mostSigBitsFixed: Option<bv64>,
                                   leastSigBitsFixed: Option<bv64>)
    requires w.mostSigBits.Some?
    ensures Decode(w) == Decode(w.(mostSigBitsFixed := mostSigBitsFixed,
                                   leastSigBitsFixed := leastSigBitsFixed))
  {
  }

  /** A message with no fields decodes to the zero UUID. */
  lemma EmptyMessageIsZero()
    ensures Decode(WireFields(None, None, None, None)) == Success(Uuid(0, 0))
  {
  }

  /** A missing fixed field reads as 0, a present one as itself. */
  lemma AbsentFixedFieldIsZero(w: WireFields)
    requires w.mostSigBits.None?
    ensures Decode(w).Success?
    ensures Decode(w).value.mostSigBits == if w.mostSigBitsFixed.None? then 0 else w.mostSigBitsFixed.value
    ensures Decode(w).value.leastSigBits == if w.leastSigBitsFixed.None? then 0 else w.leastSigBitsFixed.value
  {
  }

  /** The only message that fails to decode has field 1 without field 2. */
  lemma FailsOnlyOnPartialLegacyPair(w: WireFields)
    ensures Decode(w).Failure? <==> w.mostSigBits.Some? && w.leastSigBits.None?
    ensures Decode(w).Failure? ==> Decode(w).error == MalformedLegacyPair
  {
  }

  /**
   * The current layout written in full is exactly what the encoder produces:
   * every such message is the encoding of the UUID it decodes to.
   */
  lemma EncodeOntoCurrentLayout(w: WireFields)
    requires w.mostSigBits.None? && w.leastSigBits.None?
    requires w.mostSigBitsFixed.Some? && w.leastSigBitsFixed.Some?
    ensures exists u :: Encode(u) == w && Decode(w) == Success(u)
  {
    var u := Uuid(w.mostSigBitsFixed.value, w.leastSigBitsFixed.value);
    assert Encode(u) == w;
  }

  // ---------------------------------------------------------------------------
  // The 128-bit value of a UUID
  // ---------------------------------------------------------------------------

  /** The 128-bit value: the most-significant half supplies the high 64 bits. */
  function Bits(u: Uuid): bv128 {
    (u.mostSigBits as bv128 << 64) | (u.leastSigBits as bv128)
  }

  /** The UUID with a given 128-bit value. */
  function FromBits(b: bv128): (u: Uuid)
    ensures Bits(u) == b
  {
    Uuid((b >> 64) as bv64, (b & 0xFFFF_FFFF_FFFF_FFFF) as bv64)
  }

  /** The halves are the whole state: a UUID is the UUID of its own value. */
  lemma FromBitsOfBits(u: Uuid)
    ensures FromBits(Bits(u)) == u
  {
  }

  /** Two UUIDs are equal exactly when their 128-bit values are. */
  lemma BitsInjective(u: Uuid, v: Uuid)
    ensures Bits(u) == Bits(v) <==> u == v
  {
  }

  /** The round trip holds for each of the 2^128 identifier values. */
  lemma RoundTripEveryValue(b: bv128)
    ensures exists u :: Bits(u) == b && Decode(Encode(u)) == Success(u)
  {
    var u := FromBits(b);
    RoundTrip(u);
  }
}
