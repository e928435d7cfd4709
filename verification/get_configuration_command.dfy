/**
 * `GetConfigurationCommand`: the read-only remote command that returns a bucket's configuration,
 * with its versioned serialization handle and its telemetry hooks. The command carries no
 * parameters, so the closed command set is reduced here to its one modelled variant.
 */
module GetConfigurationCommand {
  import opened Wrappers
  import opened Errors
  import opened JavaInt
  import opened RemoteState
  import opened GenericEntry
  import opened Versioning

  datatype RemoteCommand = GetConfiguration

  /** The outcome a command hands back to the caller: a payload, or the report that the key is empty. */
  datatype CommandResult<+T> = Ok(data: T) | BucketNotFound

  /** A command's result together with the entry as the command left it. */
  datatype Execution = Execution(result: CommandResult<BucketConfiguration>, entry: Entry)

  /** The wire as the serialization adapter sees it: a stream of Java `int`s. */
  type IntStream = seq<int32>

  /** Fixed identity of this command's handle in multiplexed registries. */
  const TYPE_ID: int32 := 33

  /**
   * `execute(entry, currentTimeNanos)`: an empty slot gives bucket-not-found; otherwise the
   * configuration of the stored state is returned. The entry is handed back unchanged, so no
   * write-back is ever requested, and the clock plays no part.
   */
  function Execute(command: RemoteCommand, entry: Entry, currentTimeNanos: int64): (x: Execution)
    ensures x.entry == entry
    ensures x.result.BucketNotFound? <==> !entry.Exists()
    ensures x.result.Ok? ==>
      entry.Get().Success? && x.result.data == entry.Get().value.configuration
  {
    if !entry.Exists() then
      Execution(BucketNotFound, entry)
    else
      var state := entry.Get().value;
      Execution(Ok(state.configuration), entry)
  }

  /**
   * `serialize`: the format number of the writer's release, then no payload at all; that number
   * passes the range check the reader applies.
   */
  function Serialize(command: RemoteCommand, backwardCompatibilityVersion: Version): (r: IntStream)
    ensures |r| == 1 && r[0] == V_5_0_0.number
    ensures Check(r[0], V_5_0_0, V_5_0_0).Success?
  {
    [V_5_0_0.number]
  }

  /**
   * `deserialize`: reads one `int` and accepts it only as the 5.0.0 format number. Returns the
   * command and the rest of the stream.
   */
  function Deserialize(input: IntStream, backwardCompatibilityVersion: Version): (r: Result<(RemoteCommand, IntStream), Error>)
    ensures |input| == 0 ==> r == Failure(EndOfStream)
    ensures |input| > 0 ==> (r.Success? <==> input[0] == V_5_0_0.number)
    ensures |input| > 0 && r.Failure? ==>
      r.error == IncompatibleVersion(input[0], V_5_0_0.number, V_5_0_0.number)
    ensures r.Success? ==> r.value.1 == input[1..]
  {
    if |input| == 0 then
      Failure(EndOfStream)
    else
      var formatNumber := input[0];
      var _ :- Check(formatNumber, V_5_0_0, V_5_0_0);
      Success((GetConfiguration, input[1..]))
  }

  /** The handle's typeId: the fixed wire identity 33, whatever the command. */
  function TypeId(command: RemoteCommand): (r: int32)
    ensures r == 33
  {
    TYPE_ID
  }

  /** Two GetConfiguration commands always have the same content, since they carry no parameters. */
  function EqualsByContent(command: RemoteCommand, other: RemoteCommand): (r: bool)
    ensures r
  {
    true
  }

  /** This command never forces a batching backend to flush, whatever is pending. */
  function IsImmediateSyncRequired(command: RemoteCommand, unsynchronizedTokens: int64, nanosSinceLastSync: int64): (r: bool)
    ensures !r
  {
    false
  }

  /** The tokens the command expects to take: none. */
  function EstimateTokensToConsume(command: RemoteCommand): (r: int64)
    ensures r == 0
  {
    0
  }

  /** The tokens an execution returning `result` took: none, matching the estimate. */
  function GetConsumedTokens(command: RemoteCommand, result: BucketConfiguration): (r: int64)
    ensures r == EstimateTokensToConsume(command)
  {
    0
  }

  /**
   * On an entry freshly built from the backend's bytes, executing the command leaves nothing to
   * write back, whether or not the key held state; absent bytes, or bytes the decoder turns into
   * null, give bucket-not-found.
   */
  lemma ExecuteRequestsNoWrite(bytes: Option<Bytes>, deserializeState: StateDecoder, command: RemoteCommand, now: int64)
    requires NewEntry(bytes, deserializeState).Success?
    ensures !Execute(command, NewEntry(bytes, deserializeState).value, now).entry.IsModified()
    ensures bytes.None? ==> Execute(command, NewEntry(bytes, deserializeState).value, now).result == BucketNotFound
    ensures bytes.Some? && deserializeState(bytes.value).value.None? ==>
      Execute(command, NewEntry(bytes, deserializeState).value, now).result == BucketNotFound
    ensures bytes.Some? && deserializeState(bytes.value).value.Some? ==>
      Execute(command, NewEntry(bytes, deserializeState).value, now).result
        == Ok(deserializeState(bytes.value).value.value.configuration)
  {
  }

  /** The command is read-only: running it again, at any time, on what it left gives the same result. */
  lemma ExecuteIsRepeatable(command: RemoteCommand, entry: Entry, now: int64, later: int64)
    ensures Execute(command, Execute(command, entry, now).entry, later) == Execute(command, entry, now)
  {
  }

  /**
   * Round trip: whatever follows in the stream, reading back what was written succeeds, yields a
   * command equal by content to the original, and consumes exactly the written part.
   */
  lemma RoundTrip(command: RemoteCommand, writerCompatibility: Version, readerCompatibility: Version, rest: IntStream)
    ensures Deserialize(Serialize(command, writerCompatibility) + rest, readerCompatibility).Success?
    ensures var (decoded, remaining) := Deserialize(Serialize(command, writerCompatibility) + rest, readerCompatibility).value;
      EqualsByContent(decoded, command) && decoded == command && remaining == rest
  {
  }

  /** Conversely, every stream the handle accepts begins with a serialized command. */
  lemma DeserializeAcceptsOnlySerialized(input: IntStream, compatibility: Version)
    requires Deserialize(input, compatibility).Success?
    ensures var (decoded, remaining) := Deserialize(input, compatibility).value;
      input == Serialize(decoded, compatibility) + remaining
  {
  }

  /** A one-`int` stream is read back exactly when it holds what `serialize` writes: no other format number is accepted. */
  lemma HandleShape(command: RemoteCommand, compatibility: Version, formatNumber: int32)
    ensures Deserialize([formatNumber], compatibility).Success? <==> [formatNumber] == Serialize(command, compatibility)
  {
  }

  /**
   * Telemetry agrees with execution: the tokens reported as consumed by any successful execution
   * equal the up-front estimate, zero.
   */
  lemma TelemetryMatchesExecution(command: RemoteCommand, entry: Entry, now: int64)
    ensures Execute(command, entry, now).result.Ok? ==>
      GetConsumedTokens(command, Execute(command, entry, now).result.data) == EstimateTokensToConsume(command) == 0
  {
  }
}
