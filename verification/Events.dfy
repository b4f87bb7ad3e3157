/** What a decoder tells its output: the callbacks of RdbOutput
    (include/rdbparser/rdb_decode.h:668-719). */
module Events {
  import opened Bytes
  import opened ListValue

  /** get_rdb_type: the record types; every other byte is BadType. */
  datatype RdbType =
    | RString | RList | RSet | RZset | RHash | RZset2 | RModule | RModule2 | BadType | RHashZipmap
    | RListZiplist | RSetIntset | RZsetZiplist | RHashZiplist | RListQuicklist | RStreamListpack
    | RHashListpack | RZsetListpack | RListQuicklist2 | RStreamListpacks2

  function GetRdbType(b: Byte): RdbType {
    if b > 19 then BadType
    else
      [RString, RList, RSet, RZset, RHash, RZset2, RModule, RModule2, BadType, RHashZipmap,
       RListZiplist, RSetIntset, RZsetZiplist, RHashZiplist, RListQuicklist, RStreamListpack,
       RHashListpack, RZsetListpack, RListQuicklist2, RStreamListpacks2][b]
  }

  datatype StreamId = StreamId(ms: nat, ser: nat)

  datatype StreamPart =
    | EntryList | GroupList | Group | PendingList | ConsumerList | Consumer | ConsumerPendingList

  /** Element counters are kept for the parts of a stream only, where the output depends on them. */
  datatype Event =
    | Idle(idle: nat) | Freq(freq: Byte) | Aux(name: Elem, value: Elem) | Dbresize(size: nat, expires: nat)
    | ExpiredMs(ms: nat) | Expired(sec: nat) | Dbselect(db: nat)
    | StartType(t: RdbType) | StartKey | EndKey
    | DString(str: Elem) | DHash(field: Elem, val: Elem) | DList(elem: Elem) | DSet(member: Elem)
    | DZset(zmember: Elem, score: Elem)
    | StreamStart(part: StreamPart) | StreamEnd(part: StreamPart)
    | StreamEntry(num: nat, id: StreamId, fields: seq<(Elem, Elem)>)
    | StreamInfo(last: StreamId, numElems: nat, numCgroups: nat)
    | StreamGroup(num: nat, gname: seq<Byte>, last: StreamId, pendingCnt: nat)
    | StreamPend(num: nat, id: StreamId, lastDelivery: nat, deliveryCnt: nat)
    | StreamCons(num: nat, cname: seq<Byte>, pendCnt: nat, lastSeen: nat)
    | StreamConsPend(num: nat, id: StreamId)
}
