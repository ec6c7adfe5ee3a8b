# UUID protobuf adapter

A model of protostream's `UUIDAdapter`, the adapter that maps a
`java.util.UUID` onto a protobuf message (type id 10005). A UUID is a 128-bit
identifier made of a most-significant and a least-significant 64-bit half.
The message has two field layouts:

- legacy: field 1 (most-significant half) and field 2 (least-significant
  half), declared `UINT64`. The adapter's getters for them return `null`, so it
  never writes them; older producers did.
- current: field 3 (most-significant half) and field 4 (least-significant
  half), declared `FIXED64` with default value `0`. The adapter always writes
  them.

The factory `create` decodes: if field 1 is absent it builds the UUID from
fields 3 and 4, otherwise from fields 1 and 2.

Files:

- `Wrappers.dfy`: `Option` (an absent field or a `null` reference is `None`)
  and `Result`.
- `UuidAdapter.dfy`: module `UUIDAdapter` with the UUID value, the four-field
  message `WireFields`, the encoder (`Encode`, the four getters together), the
  factory (`Create`), the decoder (`Decode`: defaults for fields 3 and 4, then
  `Create`), a reference decoder built on an explicit tagged layout
  (`LayoutOf`, `ToUuid`), and the lemmas.

Modelling decisions:

- Each half is a `bv64`. A UINT64 on the wire and a signed Java `long` are the
  same 64 bits read two ways, so signedness never arises.
- An absent field 3 or 4 reaches the factory as its declared default 0
  (`FixedOrDefault`). An absent field 1 or 2 reaches it as `null` (`None`).
- Field 1 present with field 2 absent: in the source, `new UUID(long, long)`
  unboxes a `null` `Long` and throws `NullPointerException`. The model
  returns `Failure(MalformedLegacyPair)` in exactly this case.
- The 128-bit value of a UUID is `Bits` (the most-significant half supplies
  the high 64 bits), as `getMostSignificantBits` and
  `getLeastSignificantBits` describe it; `FromBits` is its inverse.

## Model

| member | source | states |
|---|---|---|
| `UUIDAdapter.Encode` | types/src/main/java/org/infinispan/protostream/types/java/util/UUIDAdapter.java:28-45 | the encoder leaves fields 1 and 2 absent and puts the most-significant half in field 3 and the least-significant half in field 4, bit for bit |
| `UUIDAdapter.Create` | types/src/main/java/org/infinispan/protostream/types/java/util/UUIDAdapter.java:20-26 | the factory fails exactly when field 1 is present and field 2 is not; without field 1 the UUID is the fixed halves; with field 1 the UUID's halves are fields 1 and 2 |
| `UUIDAdapter.Decode` | types/src/main/java/org/infinispan/protostream/types/java/util/UUIDAdapter.java:20-45 | decoding a message (defaults 0 for fields 3 and 4, then the factory) equals the reference decoder that first classifies the message as legacy, current or malformed by field presence |
| `UUIDAdapter.RoundTrip` | types/src/main/java/org/infinispan/protostream/types/java/util/UUIDAdapter.java:20-45 | decoding what the getters produce for any UUID gives that UUID |
| `UUIDAdapter.RoundTripEveryValue` | types/src/main/java/org/infinispan/protostream/types/java/util/UUIDAdapter.java:20-45 | for each of the 2^128 identifier values there is a UUID with that value whose encoding decodes back to it |
| `UUIDAdapter.LegacyRoundTrip` | types/src/main/java/org/infinispan/protostream/types/java/util/UUIDAdapter.java:24-36 | a message written in the legacy layout (fields 1 and 2 only, as older producers wrote it) decodes to the UUID it was written for |
| `UUIDAdapter.LayoutIndependence` | types/src/main/java/org/infinispan/protostream/types/java/util/UUIDAdapter.java:20-26 | the legacy message (m, l) and the current message (m, l) decode to the same UUID (m, l) |
| `UUIDAdapter.EncodeInjective` | types/src/main/java/org/infinispan/protostream/types/java/util/UUIDAdapter.java:38-45 | distinct UUIDs are written as distinct messages |
| `UUIDAdapter.EncodeOntoCurrentLayout` | types/src/main/java/org/infinispan/protostream/types/java/util/UUIDAdapter.java:20-22 | every message with only fields 3 and 4, both present, is the encoding of the UUID it decodes to |
| `UUIDAdapter.IgnoresLegacyLeastWithoutLegacyMost` | types/src/main/java/org/infinispan/protostream/types/java/util/UUIDAdapter.java:21-22 | without field 1 the result is built from fields 3 and 4 only; field 2 can hold anything |
| `UUIDAdapter.IgnoresFixedWithLegacyMost` | types/src/main/java/org/infinispan/protostream/types/java/util/UUIDAdapter.java:24-25 | with field 1 present, fields 3 and 4 can hold anything without changing the outcome |
| `UUIDAdapter.EmptyMessageIsZero` | types/src/main/java/org/infinispan/protostream/types/java/util/UUIDAdapter.java:38-44 | a message with no fields decodes to the UUID (0, 0) |
| `UUIDAdapter.AbsentFixedFieldIsZero` | types/src/main/java/org/infinispan/protostream/types/java/util/UUIDAdapter.java:38-44 | without field 1, decoding succeeds and an absent field 3 or 4 gives the half 0, a present one its own value |
| `UUIDAdapter.FailsOnlyOnPartialLegacyPair` | types/src/main/java/org/infinispan/protostream/types/java/util/UUIDAdapter.java:25 | decoding fails if and only if field 1 is present and field 2 absent, and then with `MalformedLegacyPair` |
| `UUIDAdapter.FromBits` | types/src/main/java/org/infinispan/protostream/types/java/util/UUIDAdapter.java:38-45 | the UUID built from the high and low 64 bits of a 128-bit value has exactly that value |
| `UUIDAdapter.FromBitsOfBits` | types/src/main/java/org/infinispan/protostream/types/java/util/UUIDAdapter.java:38-45 | a UUID is recovered from its 128-bit value: the two halves are its whole state |
| `UUIDAdapter.BitsInjective` | types/src/main/java/org/infinispan/protostream/types/java/util/UUIDAdapter.java:38-45 | two UUIDs are equal if and only if their 128-bit values are |

## Left out

- The bytes on the wire: varint and fixed-64 encodings, tags, the wrapped-message envelope and canonical JSON belong to `ProtobufUtil` and the generated marshallers, which are not part of this model. A message is the four optional field values handed to or taken from the adapter.
- Annotation processing (`@ProtoField`, `@ProtoFactory`, `@ProtoTypeId`, `@ProtoAdapter`): only its effect is modelled (field numbers, presence, the default 0 of fields 3 and 4).
- Schema and marshaller registration, and the container-wrapping configuration: external registry behaviour.
- The round-trip test harness in `TypesMarshallingTest.java`: each strategy delegates to `ProtobufUtil` calls that are not part of this model, followed by JUnit assertions. Its random inputs (random UUIDs, random byte buffers for `BitSet`) and its `BigDecimal` and `BigInteger` values (floating point, other adapters), and the equality of Java collections and arrays, are left out with it.
- The `NullPointerException` itself: a partial legacy pair is a `Failure` result instead of an exception.
