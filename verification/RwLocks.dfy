// The process-shared reader/writer lock of the memfd and the bounded store.

module RwLocks {

  /** What a pthread_rwlock_t says. */
  datatype RwWord = RwWord(readers: nat, writer: bool)

  const FREE := RwWord(0, false)

  /** pthread_rwlock_unlock by one holder. */
  function Released(w: RwWord): RwWord {
    if w.writer || w.readers == 0 then FREE else RwWord(w.readers - 1, false)
  }

  /** The lock as one caller finds it; each method starts where the call that blocks returns. */
  class RwLock {
    var word: RwWord

    method ReadLock()
      requires !word.writer
      modifies this
      ensures word == RwWord(old(word.readers) + 1, false)
    {
      word := RwWord(word.readers + 1, false);
    }

    method WriteLock()
      requires word == FREE
      modifies this
      ensures word == RwWord(0, true)
    {
      word := RwWord(0, true);
    }

    method Unlock()
      modifies this
      ensures word == Released(old(word))
    {
      word := Released(word);
    }
  }
}
