/** The output of a decoder: the callbacks it gets, and what RestoreOutput keeps of them
    (include/rdbparser/rdb_restore.h:10-36, src/rdb_restore.cpp:12-22). */
module Outputs {
  import opened Bytes
  import opened Events

  /** The callbacks that were made, and what RestoreOutput keeps of them. */
  class Output {
    var events: seq<Event>
    var ttlMs: nat
    var idle: nat
    var freq: Byte
    var typeOffset: nat
    var isMatched: bool

    constructor ()
      ensures events == [] && !isMatched
    {
      events, ttlMs, idle, freq, typeOffset, isMatched := [], 0, 0, 0, 0, false;
    }

    /** One callback; offset is that of the input cursor. */
    method Notify(e: Event, offset: nat)
      modifies this
      ensures events == old(events) + [e]
      ensures e.StartType? ==> !isMatched && typeOffset == offset
      ensures e.StartKey? ==> isMatched && typeOffset == old(typeOffset)
      ensures !e.StartType? && !e.StartKey? ==> (isMatched, typeOffset) == old((isMatched, typeOffset))
      ensures ttlMs == if e.ExpiredMs? then e.ms else if e.Expired? then e.sec * 1000 else old(ttlMs)
      ensures idle == if e.Idle? then e.idle else old(idle)
      ensures freq == if e.Freq? then e.freq else old(freq)
    {
      events := events + [e];
      match e
      case StartType(_) => isMatched, typeOffset := false, offset;
      case StartKey => isMatched := true;
      case Idle(i) => idle := i;
      case Freq(f) => freq := f;
      case ExpiredMs(ms) => ttlMs := ms;
      case Expired(sec) => ttlMs := sec * 1000;
      case _ =>
    }

    /** A callback about the value of a record. */
    method Value(e: Event)
      requires !e.StartType? && !e.StartKey? && !e.ExpiredMs? && !e.Expired? && !e.Idle? && !e.Freq?
      modifies this`events
      ensures events == old(events) + [e]
    {
      events := events + [e];
    }

    method ResetState()
      modifies this`isMatched, this`ttlMs, this`idle, this`freq
      ensures !isMatched && ttlMs == 0 && idle == 0 && freq == 0
    {
      isMatched, ttlMs, idle, freq := false, 0, 0, 0;
    }
  }
}
