/** Small types shared by the whole model. */
module Common {

  datatype Option<+T> = None | Some(value: T)

  /** A clock reading: nanoseconds since the Unix epoch. */
  type Time = int

  const TWO_63 := 0x8000_0000_0000_0000
  const TWO_64 := 0x1_0000_0000_0000_0000

  type Int64 = x: int | -0x8000_0000_0000_0000 <= x < 0x8000_0000_0000_0000

  /** Wrap-around of int64 arithmetic. */
  function I64(x: int): Int64 {
    (x + TWO_63) % TWO_64 - TWO_63
  }
}

/** The abstract behaviour of Go's `sync.RWMutex`: any number of readers, or one writer. */
module ReadWriteLock {
  import opened Common

  datatype RWMutex = RWMutex(readers: set<nat>, writer: Option<nat>)

  const UNLOCKED := RWMutex({}, None)

  predicate MayRLock(m: RWMutex) {
    m.writer.None?
  }

  predicate MayLock(m: RWMutex) {
    m.writer.None? && m.readers == {}
  }

  function RLocked(m: RWMutex, c: nat): RWMutex {
    m.(readers := m.readers + {c})
  }

  function Locked(m: RWMutex, c: nat): RWMutex {
    m.(writer := Some(c))
  }

  /** Releases whatever `c` holds. */
  function Released(m: RWMutex, c: nat): RWMutex {
    RWMutex(m.readers - {c}, if m.writer == Some(c) then None else m.writer)
  }

  ghost predicate Exclusive(m: RWMutex) {
    m.writer.Some? ==> m.readers == {}
  }
}
