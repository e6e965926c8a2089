/** The values the adapter exchanges with the PowerDNS HTTP API and with the panel. */
module Pdns {

  datatype Option<+T> = None | Some(value: T) {
    function GetOr(default: T): T {
      match this
      case Some(v) => v
      case None => default
    }
  }

  /** The `changetype` of an RRset in a PATCH body (absent in zone snapshots). */
  datatype ChangeType = Replace | Delete

  /** One member of an RRset: its `content` and `disabled` flag. */
  datatype Member = Member(content: string, disabled: bool)

  /** A comment PowerDNS keeps beside an RRset. */
  datatype Comment = Comment(content: string, account: string, modifiedAt: int)

  /** An RRset as PowerDNS serialises it. A key that the source leaves out, drops
      with `unset`/`array_forget`, or sets to `null` is `None` here. */
  datatype RRset = RRset(
    name: string,
    rtype: string,
    ttl: Option<int>,
    records: seq<Member>,
    comments: Option<seq<Comment>>,
    changetype: Option<ChangeType>)

  /** One entry of the `rrsets` list of a PATCH body. `Blank` is an empty PHP
      array `[]` standing where an RRset would be. */
  datatype Patch = Set(rrset: RRset) | Blank

  /** A record intent of the panel: zone, subdomain label (`"@"` marks the apex),
      record type, parameter, ttl (`null` when unset) and per-type metadata. */
  datatype Record = Record(
    zone: string,
    name: string,
    rr: string,
    parameter: string,
    ttl: Option<int>,
    meta: map<string, string>)

  /** `getMeta($key)`, read where PHP turns a missing value (`null`) into `default`. */
  function MetaOr(meta: map<string, string>, key: string, default: string): string {
    if key in meta then meta[key] else default
  }

  /** A ttl used as a PHP condition: `null` and `0` are falsy. */
  predicate TtlSet(ttl: Option<int>) {
    ttl.Some? && ttl.value != 0
  }

  predicate AtLocation(s: RRset, name: string, rtype: string) {
    s.name == name && s.rtype == rtype
  }
}
