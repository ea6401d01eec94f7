/** Values shared by every component: cache metadata and stored objects. */
module Objects {

  datatype Option<+T> = None | Some(value: T)

  newtype byte = x: int | 0 <= x < 256
  type Bytes = seq<byte>

  /** cache.Meta. Instants and durations are integers (nanoseconds). */
  datatype Meta = Meta(key: string, writtenAt: int, ttl: int, size: nat, headers: map<string, seq<string>>) {

    function ExpiresAt(): int {
      writtenAt + ttl
    }

    predicate Expired(now: int) {
      now > ExpiresAt()
    }
  }

  /** What one storage key holds: the content and the metadata written next to it. */
  datatype Obj = Obj(body: Bytes, meta: Meta)

  type ObjectMap = map<string, Obj>

  /** Outcome of one Write on the backend. A failed write can leave the key as it was,
      without an object, or (when even the clean-up fails) with the new object. */
  datatype WriteResult = Written | FailedUnchanged | FailedAbsent | FailedKept

  function AfterWrite(store: ObjectMap, key: string, obj: Obj, w: WriteResult): ObjectMap {
    match w
    case Written => store[key := obj]
    case FailedKept => store[key := obj]
    case FailedUnchanged => store
    case FailedAbsent => store - {key}
  }
}
