/**
 * `HazelcastSerializer`: the table of custom Hazelcast serializers, one per transferable
 * Bucket4j type, each identified by a fixed typeId that can be shifted by a user-chosen base.
 * Only the typeId arithmetic and the delegation to the type's serialization handle are modelled.
 */
module HazelcastSerializer {
  import opened Wrappers
  import opened JavaInt

  /** The `Class` objects of the nineteen Bucket4j types that travel through Hazelcast. */
  datatype SerializableType =
      // persisted state
    | BandwidthClass | BucketConfigurationClass | BucketStateClass | GridBucketStateClass
      // commands
    | ReserveAndCalculateTimeToSleepCommandClass | AddTokensCommandClass | ConsumeAsMuchAsPossibleCommandClass
    | CreateSnapshotCommandClass | GetAvailableTokensCommandClass | EstimateAbilityToConsumeCommandClass
    | TryConsumeCommandClass | TryConsumeAndReturnRemainingTokensCommandClass
    | ReplaceConfigurationOrReturnPreviousCommandClass
      // command results
    | CommandResultClass | ConsumptionProbeClass | EstimationProbeClass
      // JCache entry processors
    | ExecuteProcessorClass | InitStateProcessorClass | InitStateAndExecuteProcessorClass

  /** The `SERIALIZATION_HANDLE` a type declares; it alone decides the type's wire shape. */
  datatype SerializationHandle = HandleOf(owner: SerializableType)

  datatype Serializer = Serializer(typeId: int32, serializableType: SerializableType, handle: SerializationHandle)
  {
    /** A copy whose typeId is shifted by `baseTypeId` with Java `int` addition; the receiver is a value and stays as it was. */
    function WithBaseTypeId(baseTypeId: int32): (r: Serializer)
      ensures MIN_INT <= typeId + baseTypeId <= MAX_INT ==> r.typeId == typeId + baseTypeId
      ensures (typeId + baseTypeId - r.typeId) % INT_RANGE == 0
      ensures r.serializableType == serializableType && r.handle == handle
    {
      Serializer(Add(typeId, baseTypeId), serializableType, handle)
    }

    /** The id this serializer is registered under. */
    function GetTypeId(): (r: int32)
      ensures r == typeId
    {
      typeId
    }

    /** The class this serializer reads and writes. */
    function GetSerializableType(): (r: SerializableType)
      ensures r == serializableType
    {
      serializableType
    }
  }

  /** The constructor `new HazelcastSerializer(typeId, type, handle)`. */
  function NewSerializer(typeId: int32, serializableType: SerializableType, handle: SerializationHandle): (r: Serializer)
    ensures r.GetTypeId() == typeId
    ensures r.GetSerializableType() == serializableType && r.handle == handle
  {
    Serializer(typeId, serializableType, handle)
  }

  /** The type registered under a builtin typeId, if any: an independent reading of the table from ids to types. */
  function TypeOfBuiltinId(id: int): (r: Option<SerializableType>)
  {
    if id == 1 then Some(BandwidthClass)
    else if id == 2 then Some(BucketConfigurationClass)
    else if id == 3 then Some(BucketStateClass)
    else if id == 4 then Some(GridBucketStateClass)
    else if id == 5 then Some(ReserveAndCalculateTimeToSleepCommandClass)
    else if id == 6 then Some(AddTokensCommandClass)
    else if id == 7 then Some(ConsumeAsMuchAsPossibleCommandClass)
    else if id == 8 then Some(CreateSnapshotCommandClass)
    else if id == 9 then Some(GetAvailableTokensCommandClass)
    else if id == 10 then Some(EstimateAbilityToConsumeCommandClass)
    else if id == 11 then Some(TryConsumeCommandClass)
    else if id == 12 then Some(TryConsumeAndReturnRemainingTokensCommandClass)
    else if id == 13 then Some(ReplaceConfigurationOrReturnPreviousCommandClass)
    else if id == 14 then Some(CommandResultClass)
    else if id == 15 then Some(ConsumptionProbeClass)
    else if id == 16 then Some(EstimationProbeClass)
    else if id == 17 then Some(ExecuteProcessorClass)
    else if id == 18 then Some(InitStateProcessorClass)
    else if id == 19 then Some(InitStateAndExecuteProcessorClass)
    else None
  }

  /** The fixed typeId each type is declared with: in 1..19, and read back to the same type by the id table. */
  function BuiltinTypeId(t: SerializableType): (r: int32)
    ensures 1 <= r <= 19
    ensures TypeOfBuiltinId(r) == Some(t)
  {
    match t
    case BandwidthClass => 1
    case BucketConfigurationClass => 2
    case BucketStateClass => 3
    case GridBucketStateClass => 4
    case ReserveAndCalculateTimeToSleepCommandClass => 5
    case AddTokensCommandClass => 6
    case ConsumeAsMuchAsPossibleCommandClass => 7
    case CreateSnapshotCommandClass => 8
    case GetAvailableTokensCommandClass => 9
    case EstimateAbilityToConsumeCommandClass => 10
    case TryConsumeCommandClass => 11
    case TryConsumeAndReturnRemainingTokensCommandClass => 12
    case ReplaceConfigurationOrReturnPreviousCommandClass => 13
    case CommandResultClass => 14
    case ConsumptionProbeClass => 15
    case EstimationProbeClass => 16
    case ExecuteProcessorClass => 17
    case InitStateProcessorClass => 18
    case InitStateAndExecuteProcessorClass => 19
  }

  /** The static serializer declared for a type, e.g. `BANDWIDTH_SERIALIZER` for `Bandwidth`. */
  function Builtin(t: SerializableType): (r: Serializer)
    ensures 1 <= r.typeId <= 19 && r.typeId == BuiltinTypeId(t)
    ensures r.serializableType == t && r.handle == HandleOf(t)
  {
    NewSerializer(BuiltinTypeId(t), t, HandleOf(t))
  }

  /**
   * The builtin table is onto 1..19: every id in that range, and no other, belongs to a type, and
   * that type is declared with exactly this id. With `BuiltinTypeId`'s contract this makes the
   * table a bijection between the nineteen types and 1..19.
   */
  lemma BuiltinTypeIdsAreABijection(id: int)
    ensures TypeOfBuiltinId(id).Some? <==> 1 <= id <= 19
    ensures TypeOfBuiltinId(id).Some? ==> BuiltinTypeId(TypeOfBuiltinId(id).value) == id
  {
  }

  /** Two different types are never declared with the same typeId. */
  lemma BuiltinTypeIdsDistinct(t1: SerializableType, t2: SerializableType)
    ensures t1 != t2 ==> BuiltinTypeId(t1) != BuiltinTypeId(t2)
  {
  }

  /** The serializers in the order `getAllSerializers` lists them: declaration order except that the two probes are swapped. */
  const RegistrationOrder: seq<SerializableType> := [
    BandwidthClass, BucketConfigurationClass, BucketStateClass, GridBucketStateClass,
    ReserveAndCalculateTimeToSleepCommandClass, AddTokensCommandClass, ConsumeAsMuchAsPossibleCommandClass,
    CreateSnapshotCommandClass, GetAvailableTokensCommandClass, EstimateAbilityToConsumeCommandClass,
    TryConsumeCommandClass, TryConsumeAndReturnRemainingTokensCommandClass,
    ReplaceConfigurationOrReturnPreviousCommandClass,
    CommandResultClass, EstimationProbeClass, ConsumptionProbeClass,
    ExecuteProcessorClass, InitStateProcessorClass, InitStateAndExecuteProcessorClass
  ]

  /** Position in the registration list of the serializer declared at position `k` (0-based): the two probes trade places. */
  function RegistrationPosition(k: int): (r: int)
  {
    if k == 14 then 15 else if k == 15 then 14 else k
  }

  /** Reading the registration list by position gives back the declared typeIds, with the probes swapped. */
  lemma RegisteredTypeIdAt(i: int)
    requires 0 <= i < |RegistrationOrder|
    ensures BuiltinTypeId(RegistrationOrder[i]) == RegistrationPosition(i) + 1
  {
  }

  /** Each type sits in the registration list where its typeId says it does. */
  lemma RegisteredPositionOf(t: SerializableType)
    ensures 0 <= RegistrationPosition(BuiltinTypeId(t) - 1) < |RegistrationOrder|
    ensures RegistrationOrder[RegistrationPosition(BuiltinTypeId(t) - 1)] == t
  {
  }

  /** The registration list names each of the nineteen types, and none twice. */
  lemma RegistrationOrderIsComplete(t: SerializableType, i: int, j: int)
    ensures exists k :: 0 <= k < |RegistrationOrder| && RegistrationOrder[k] == t
    ensures 0 <= i < j < |RegistrationOrder| ==> RegistrationOrder[i] != RegistrationOrder[j]
  {
    RegisteredPositionOf(t);
    if 0 <= i < j < |RegistrationOrder| {
      RegisteredTypeIdAt(i);
      RegisteredTypeIdAt(j);
    }
  }

  /** `r` lists the builtin serializers in registration order, each shifted by `typeIdBase`. */
  ghost predicate IsShiftedRegistration(r: seq<Serializer>, typeIdBase: int32) {
    && |r| == |RegistrationOrder|
    && forall i :: 0 <= i < |r| ==> r[i] == Builtin(RegistrationOrder[i]).WithBaseTypeId(typeIdBase)
  }

  /** `r` holds a serializer for type `t`, with `t`'s own handle and its declared typeId shifted by `typeIdBase`. */
  predicate Registers(r: seq<Serializer>, typeIdBase: int32, t: SerializableType) {
    exists i :: 0 <= i < |r| && r[i] == Serializer(Add(BuiltinTypeId(t), typeIdBase), t, HandleOf(t))
  }

  lemma ShiftedRegistrationHolds(r: seq<Serializer>, typeIdBase: int32, t: SerializableType)
    requires IsShiftedRegistration(r, typeIdBase)
    ensures Registers(r, typeIdBase, t)
  {
    RegisteredPositionOf(t);
    var i := RegistrationPosition(BuiltinTypeId(t) - 1);
    assert r[i] == Builtin(RegistrationOrder[i]).WithBaseTypeId(typeIdBase);
  }

  lemma ShiftedRegistrationCoversEveryType(r: seq<Serializer>, typeIdBase: int32)
    requires IsShiftedRegistration(r, typeIdBase)
    ensures forall t :: Registers(r, typeIdBase, t)
  {
    forall t ensures Registers(r, typeIdBase, t) {
      ShiftedRegistrationHolds(r, typeIdBase, t);
    }
  }

  lemma ShiftedRegistrationHasDistinctTypeIds(r: seq<Serializer>, typeIdBase: int32)
    requires IsShiftedRegistration(r, typeIdBase)
    ensures forall i, j :: 0 <= i < j < |r| ==> r[i].typeId != r[j].typeId
  {
  }

  lemma ShiftedRegistrationTypeIds(r: seq<Serializer>, typeIdBase: int32)
    requires IsShiftedRegistration(r, typeIdBase)
    ensures (set s | s in r :: s.typeId) == (set k: int32 | 1 <= k <= 19 :: Add(k, typeIdBase))
    ensures typeIdBase + 19 <= MAX_INT ==> forall s :: s in r ==> typeIdBase + 1 <= s.typeId <= typeIdBase + 19
  {
    var ids := set s | s in r :: s.typeId;
    var shifted := set k: int32 | 1 <= k <= 19 :: Add(k, typeIdBase);
    forall id | id in ids ensures id in shifted {
      var i :| 0 <= i < |r| && r[i].typeId == id;
      RegisteredTypeIdAt(i);
      assert id == Add(RegistrationPosition(i) + 1, typeIdBase);
    }
    ShiftedRegistrationCoversEveryType(r, typeIdBase);
    forall id | id in shifted ensures id in ids {
      var k: int32 :| 1 <= k <= 19 && id == Add(k, typeIdBase);
      BuiltinTypeIdsAreABijection(k);
      var t := TypeOfBuiltinId(k).value;
      assert Registers(r, typeIdBase, t);
      var i :| 0 <= i < |r| && r[i] == Serializer(Add(BuiltinTypeId(t), typeIdBase), t, HandleOf(t));
      assert r[i].typeId == id;
    }
    if typeIdBase + 19 <= MAX_INT {
      forall s | s in r ensures typeIdBase + 1 <= s.typeId <= typeIdBase + 19 {
        var i :| 0 <= i < |r| && r[i] == s;
        RegisteredTypeIdAt(i);
      }
    }
  }

  /**
   * `getAllSerializers(typeIdBase)`: every builtin serializer, shifted by `typeIdBase`. The list
   * holds nineteen serializers, one per type with that type's handle; their typeIds are pairwise
   * distinct for every base (even where the shifted ids wrap around) and are exactly the declared
   * ids 1..19 shifted by the base, so that without overflow they lie in `typeIdBase + 1 .. typeIdBase + 19`.
   */
  function GetAllSerializers(typeIdBase: int32): (r: seq<Serializer>)
    ensures |r| == 19
    ensures forall t :: Registers(r, typeIdBase, t)
    ensures forall i, j :: 0 <= i < j < |r| ==> r[i].typeId != r[j].typeId
    ensures (set s | s in r :: s.typeId) == (set k: int32 | 1 <= k <= 19 :: Add(k, typeIdBase))
    ensures typeIdBase + 19 <= MAX_INT ==> forall s :: s in r ==> typeIdBase + 1 <= s.typeId <= typeIdBase + 19
    ensures forall i :: 0 <= i < |r| ==> r[i] == Builtin(RegistrationOrder[i]).WithBaseTypeId(typeIdBase)
  {
    var r := seq(|RegistrationOrder|, i requires 0 <= i < |RegistrationOrder| => Builtin(RegistrationOrder[i]).WithBaseTypeId(typeIdBase));
    ShiftedRegistrationCoversEveryType(r, typeIdBase);
    ShiftedRegistrationHasDistinctTypeIds(r, typeIdBase);
    ShiftedRegistrationTypeIds(r, typeIdBase);
    r
  }

  /**
   * With base 0 each registered serializer is a copy of the declared one with the same typeId,
   * class and handle (as values; in Java it is a new object).
   */
  lemma AllSerializersWithZeroBase(i: int)
    requires 0 <= i < |GetAllSerializers(0)|
    ensures GetAllSerializers(0)[i] == Builtin(RegistrationOrder[i])
  {
  }

  /**
   * Shifting by 0 gives a copy with the same typeId, class and handle, and two shifts add up with
   * Java `int` addition.
   */
  lemma WithBaseTypeIdComposes(s: Serializer, first: int32, second: int32)
    ensures s.WithBaseTypeId(0) == s
    ensures s.WithBaseTypeId(first).WithBaseTypeId(second) == s.WithBaseTypeId(Add(first, second))
  {
  }

  /** `write(out, value)`: delegated to the handle; the Hazelcast output stream is abstracted by `serialize`. */
  function Write<T, O>(s: Serializer, value: T, serialize: (SerializationHandle, T) -> O): (r: O)
    ensures r == serialize(s.handle, value)
  {
    serialize(s.handle, value)
  }

  /** `read0(in)`: delegated to the handle; the Hazelcast input stream is abstracted by `deserialize`. */
  function Read0<I, T>(s: Serializer, input: I, deserialize: (SerializationHandle, I) -> T): (r: T)
    ensures r == deserialize(s.handle, input)
  {
    deserialize(s.handle, input)
  }

  /** `read(in)`: whatever `read0` decodes. */
  function Read<I, T>(s: Serializer, input: I, deserialize: (SerializationHandle, I) -> T): (r: T)
    ensures r == Read0(s, input, deserialize)
  {
    Read0(s, input, deserialize)
  }

  /** `read(in, aClass)`: whatever `read0` decodes; the class argument is ignored. */
  function ReadAs<I, T>(s: Serializer, input: I, aClass: SerializableType, deserialize: (SerializationHandle, I) -> T): (r: T)
    ensures r == Read0(s, input, deserialize)
  {
    Read0(s, input, deserialize)
  }

  /**
   * Both `read` overloads decode alike whatever class is passed, and reading or writing through a
   * shifted copy behaves as through the original: the typeId plays no part in the payload.
   */
  lemma ReadOverloadsAgree<I, T, O>(s: Serializer, input: I, aClass: SerializableType, typeIdBase: int32,
                                    deserialize: (SerializationHandle, I) -> T, value: T, serialize: (SerializationHandle, T) -> O)
    ensures ReadAs(s, input, aClass, deserialize) == Read(s, input, deserialize)
    ensures Read(s.WithBaseTypeId(typeIdBase), input, deserialize) == Read(s, input, deserialize)
    ensures Write(s.WithBaseTypeId(typeIdBase), value, serialize) == Write(s, value, serialize)
  {
  }
}
