/**
 * `GenericEntry`: the short-lived view over one key's slot that a command runs against.
 * It holds the state decoded from the bytes fetched from the backend (absent when the key is
 * empty) and the state a command asked to write back (absent until `set` is called).
 */
module GenericEntry {
  import opened Wrappers
  import opened Errors
  import opened RemoteState

  /**
   * The bytes-to-state decoder of the library's internal serialization helper. It may throw
   * (`Failure`) or, like any Java method returning a reference, return null (`Success(None)`).
   */
  type StateDecoder = Bytes -> Result<Option<RemoteBucketState>, Error>

  datatype Entry = Entry(original: Option<RemoteBucketState>, modified: Option<RemoteBucketState>)
  {
    /** Whether the backend held any state for the key when the entry was built. */
    function Exists(): (r: bool)
      ensures r <==> original != None
    {
      original.Some?
    }

    /** The state read at the start of the invocation; reading it from an empty slot fails fast. */
    function Get(): (r: Result<RemoteBucketState, Error>)
      ensures r.Success? <==> Exists()
      ensures r.Success? ==> Some(r.value) == original
      ensures r.Failure? ==> r.error == NullReference
    {
      match original
      case Some(s) => Success(s)
      case None => Failure(NullReference)
    }

    /**
     * Records the state to write back, replacing any earlier request; `None` (Java's `null`)
     * withdraws the request. The state read from the backend is never touched.
     */
    function Set(state: Option<RemoteBucketState>): (r: Entry)
      ensures r.Exists() == Exists() && r.Get() == Get()
      ensures r.ModifiedState() == state
      ensures r.IsModified() <==> state.Some?
    {
      this.(modified := state)
    }

    /** The state a command asked to persist, or `None` when no write-back is pending. */
    function ModifiedState(): (r: Option<RemoteBucketState>)
      ensures r == modified
    {
      modified
    }

    /** Whether a write-back is pending: exactly when a modified state is present. */
    function IsModified(): (r: bool)
      ensures r <==> ModifiedState().Some?
    {
      modified.Some?
    }
  }

  /**
   * The constructor: absent bytes (an empty slot) give a non-existent entry; present bytes are
   * decoded once, the entry exists exactly when the decoder returns a state, and a decoding
   * failure propagates out of the constructor. A new entry is never modified.
   */
  function NewEntry(originalStateBytes: Option<Bytes>, deserializeState: StateDecoder): (r: Result<Entry, Error>)
    ensures originalStateBytes.None? ==> r.Success? && !r.value.Exists()
    ensures originalStateBytes.Some? ==>
      match deserializeState(originalStateBytes.value)
      case Success(Some(s)) => r.Success? && r.value.Exists() && r.value.Get() == Success(s)
      case Success(None) => r.Success? && !r.value.Exists()
      case Failure(e) => r == Failure(e)
    ensures r.Success? ==> !r.value.IsModified() && r.value.ModifiedState().None?
  {
    match originalStateBytes
    case None => Success(Entry(None, None))
    case Some(bytes) =>
      var original :- deserializeState(bytes);
      Success(Entry(original, None))
  }

  /** The entry after the given `set` calls, in order. */
  function SetAll(entry: Entry, states: seq<Option<RemoteBucketState>>): (r: Entry)
    decreases |states|
  {
    if |states| == 0 then entry else SetAll(entry.Set(states[0]), states[1..])
  }

  /**
   * Any sequence of `set` calls leaves `exists` and `get` as they were, and the last call alone
   * decides what is pending; with no call nothing changes.
   */
  lemma {:induction false} SetAllKeepsOriginal(entry: Entry, states: seq<Option<RemoteBucketState>>)
    ensures SetAll(entry, states).Exists() == entry.Exists()
    ensures SetAll(entry, states).Get() == entry.Get()
    ensures SetAll(entry, states).ModifiedState() ==
      if |states| == 0 then entry.ModifiedState() else states[|states| - 1]
    decreases |states|
  {
    if |states| > 0 {
      SetAllKeepsOriginal(entry.Set(states[0]), states[1..]);
    }
  }

  /** Of two consecutive `set` calls the second wins, whatever the first one recorded. */
  lemma LastSetWins(entry: Entry, first: Option<RemoteBucketState>, second: Option<RemoteBucketState>)
    ensures entry.Set(first).Set(second) == entry.Set(second)
  {
  }

  /** `set(null)` after any history returns the entry to the condition it was built in. */
  lemma SetNullRestoresFresh(bytes: Option<Bytes>, deserializeState: StateDecoder, states: seq<Option<RemoteBucketState>>)
    requires NewEntry(bytes, deserializeState).Success?
    ensures SetAll(NewEntry(bytes, deserializeState).value, states).Set(None) == NewEntry(bytes, deserializeState).value
  {
    var built := NewEntry(bytes, deserializeState).value;
    SetAllKeepsOriginal(built, states);
  }
}
