/** The provider module: the zone snapshot it fetches, the three reconcilers that
    loop over it, `createNS`, and the record operations that guard them. */
module Provider {
  import opened PhpStrings
  import opened Pdns
  import opened Names
  import opened Content
  import opened Reconcile

  /** How a record operation ends before its PATCH is sent: refused with an error,
      a TypeError raised, or the `rrsets` of the PATCH it sends. */
  datatype Outcome = Refused | Raised | Patched(rrsets: seq<Patch>)

  function AsPatches(sets: seq<RRset>): (ps: seq<Patch>)
    ensures |ps| == |sets| && forall i :: 0 <= i < |sets| ==> ps[i] == Set(sets[i])
  {
    seq(|sets|, i requires 0 <= i < |sets| => Set(sets[i]))
  }

  /** The SOA branch of `canonicalizeRecord`: `None` where it raises. */
  function CanonicalParameter(rr: string, param: string): (p: Option<string>)
    ensures rr != "SOA" ==> p == Some(param)
    ensures rr == "SOA" ==> p == SoaCanonical(param)
  {
    if rr == "SOA" then SoaCanonical(param) else Some(param)
  }

  /** The inner loop of `addRecords`: does a member of the set, read back as a
      record, count as the same record as `r`? */
  method HoldsDuplicate(r: Record, s: RRset, same: SameRecord, dnsTtl: int) returns (found: bool)
    ensures found == HasDuplicate(r, s, same, dnsTtl)
  {
    var j := 0;
    while j < |s.records| && !same(r, Probe(r, s, s.records[j], dnsTtl))
      invariant 0 <= j <= |s.records|
      invariant forall k :: 0 <= k < j ==> !same(r, Probe(r, s, s.records[k], dnsTtl))
    {
      j := j + 1;
    }
    found := j < |s.records|;
  }

  /** The inner loop of `changeRecords`: keep, in order, the members whose content
      is not the one being changed. */
  method KeepOthers(records: seq<Member>, content: string) returns (kept: seq<Member>)
    ensures kept == Kept(records, content)
  {
    kept := [];
    var j := 0;
    while j < |records|
      invariant 0 <= j <= |records|
      invariant kept == Kept(records[..j], content)
    {
      KeptStep(records, j, content);
      if records[j].content != content {
        kept := kept + [records[j]];
      }
      j := j + 1;
    }
    assert records[..j] == records;
  }

  /** The inner search of `removeRecords`: walk the members of one set, unset the
      first one the parameter names (any member when the parameter is falsy) and
      stop. */
  method UnsetFirst(members: seq<Member>, parameter: string) returns (kept: seq<Member>)
    ensures kept == Without(members, RemoveIndex(members, parameter))
  {
    var k := 0;
    while k < |members| && !IsFalsy(parameter) && members[k].content != parameter
      invariant 0 <= k <= |members|
      invariant k > 0 ==> !IsFalsy(parameter)
      invariant forall j :: 0 <= j < k ==> members[j].content != parameter
    {
      k := k + 1;
    }
    RemoveIndexIs(members, parameter, k);
    kept := members;
    if k < |members| {
      kept := members[..k] + members[k + 1..];
    }
  }

  /** The loop of `removeRecords` over the snapshot: every set at the record's
      name+type, with its first removable member unset. */
  method ScanForRemoval(sets: seq<RRset>, name: string, r: Record) returns (found: seq<RRset>)
    ensures found == RemoveScan(sets, name, r)
  {
    found := [];
    var i := 0;
    while i < |sets|
      invariant 0 <= i <= |sets|
      invariant found + RemoveScan(sets[i..], name, r) == RemoveScan(sets, name, r)
    {
      var s := sets[i];
      RemoveScanStep(sets, i, name, r);
      if s.name == name && s.rtype == r.rr {
        var members := UnsetFirst(s.records, r.parameter);
        assert s.(records := members, comments := None, changetype := Some(Replace)) == RemoveFromSet(s, r.parameter);
        found := found + [s.(records := members, comments := None, changetype := Some(Replace))];
      }
      i := i + 1;
    }
    assert sets[i..] == [];
  }

  class Module {
    /** `hasCnameApexRestriction()`, fixed by the configuration the constructor is given. */
    const apexRestricted: bool
    /** The host's `DNS_TTL`. */
    const dnsTtl: int
    /** `Record::is` of the host record class. */
    const same: SameRecord
    /** `$this->records`: the RRsets of the zone fetched last. */
    var records: seq<RRset>
    /** How many zone fetches have been made. */
    var fetches: nat

    /** `dnsRecursionDefined` says whether `AUTH_DNS_RECURSION` is defined and
        `pdnsRecursion` is the value of `AUTH_PDNS_RECURSION`. */
    constructor (dnsRecursionDefined: bool, pdnsRecursion: bool, dnsTtl: int, same: SameRecord)
      ensures apexRestricted == HasCnameApexRestriction(dnsRecursionDefined, pdnsRecursion)
      ensures this.dnsTtl == dnsTtl && this.same == same
      ensures records == [] && fetches == 0
    {
      apexRestricted := HasCnameApexRestriction(dnsRecursionDefined, pdnsRecursion);
      this.dnsTtl := dnsTtl;
      this.same := same;
      records := [];
      fetches := 0;
    }

    /** `addRecords`: scan the snapshot, stopping at the first set that already
        holds the record. */
    method AddRecords(r: Record) returns (ret: seq<RRset>)
      requires CaaDataPresent(r)
      ensures ret == Reconcile.AddRecords(records, r, same, apexRestricted, dnsTtl)
    {
      var name := ReplaceMarker(r.zone, r.name);
      ghost var content := ParseParameter(r);
      ghost var whole := AddScan(records, r, name, content, same, dnsTtl);
      ret := [];
      var i := 0;
      while i < |records|
        invariant 0 <= i <= |records|
        invariant ret + AddScan(records[i..], r, name, content, same, dnsTtl) == whole
      {
        var s := records[i];
        AddScanStep(records, i, r, name, content, same, dnsTtl);
        if s.name == name && s.rtype == r.rr {
          var marked := s.(changetype := Some(Replace));
          var duplicate := HoldsDuplicate(r, marked, same, dnsTtl);
          if duplicate {
            ret := ret + [marked];
            break;
          }
          ret := ret + [marked.(records := marked.records + [Member(ParseParameter(r), false)])];
        }
        i := i + 1;
      }
      if ret == [] {
        ret := [FormatRecord(r, apexRestricted)];
      }
    }

    /** `removeRecords`: unset the first removable member of each matching set. */
    method RemoveRecords(r: Record) returns (ret: seq<RRset>)
      ensures ret == Reconcile.RemoveRecords(records, r)
    {
      var name := ReplaceMarker(r.zone, r.name);
      var found := ScanForRemoval(records, name, r);
      if found == [] || found[0].records == [] {
        ret := [DeleteStub(name, r.rr)];
      } else {
        ret := found;
      }
    }

    /** `changeRecords`: find the old and the new location in the snapshot, then
        build the patch list. */
    method ChangeRecords(oldRec: Record, newRec: Record) returns (ret: seq<Patch>)
      requires CaaDataPresent(oldRec) && CaaDataPresent(newRec)
      ensures ret == Reconcile.ChangeRecords(records, oldRec, newRec, apexRestricted)
    {
      var oldName := ReplaceMarker(oldRec.zone, oldRec.name);
      var newName := ReplaceMarker(newRec.zone, newRec.name);
      var remove: Option<RRset> := None;
      var add: Option<RRset> := None;
      var newTtl := newRec.ttl;
      var paramMatch := ParseParameter(oldRec);
      ghost var final := ChangeLoop(records, ChangeState(None, None, newRec.ttl), oldRec, newRec, paramMatch);
      var i := 0;
      while i < |records|
        invariant 0 <= i <= |records|
        invariant ChangeLoop(records[i..], ChangeState(remove, add, newTtl), oldRec, newRec, paramMatch) == final
      {
        var s := records[i];
        ghost var before := ChangeState(remove, add, newTtl);
        ChangeLoopStep(records, i, before, oldRec, newRec, paramMatch);
        if s.name == oldName && s.rtype == oldRec.rr {
          if TtlSet(oldRec.ttl) && s.ttl != oldRec.ttl {
            assert ChangeStep(before, s, oldRec, newRec, paramMatch) == before;
            i := i + 1;
            continue;
          }
          if newTtl.None? {
            newTtl := s.ttl;
          }
          var kept := KeepOthers(s.records, paramMatch);
          if kept == [] {
            remove := Some(RRset(s.name, s.rtype, None, [], None, Some(Delete)));
          } else {
            remove := Some(RRset(s.name, s.rtype, s.ttl, kept, s.comments, Some(Replace)));
          }
          assert ChangeStep(before, s, oldRec, newRec, paramMatch) == ChangeState(remove, add, newTtl);
        } else if s.name == newName && s.rtype == newRec.rr {
          if TtlSet(newTtl) && s.ttl != newTtl {
            assert ChangeStep(before, s, oldRec, newRec, paramMatch) == before;
            i := i + 1;
            continue;
          }
          add := Some(s);
          assert ChangeStep(before, s, oldRec, newRec, paramMatch) == ChangeState(remove, add, newTtl);
        }
        i := i + 1;
      }
      assert records[i..] == [];
      assert final == ChangeState(remove, add, newTtl);
      ret := FinishChange(ChangeState(remove, add, newTtl), oldRec, newRec);
    }

    /** The end of `changeRecords`: the patch for the new location first, then the
        one for the old location when there is one. */
    method FinishChange(st: ChangeState, oldRec: Record, newRec: Record) returns (ret: seq<Patch>)
      requires CaaDataPresent(newRec)
      ensures ret == ChangeFinish(st, oldRec, newRec, apexRestricted)
    {
      var created := FormatRecord(newRec.(ttl := st.newTtl), apexRestricted);
      if st.add.None? {
        if st.remove.None? {
          ret := [Set(created), Blank];
        } else if st.remove.value.records == [] && created.name == st.remove.value.name && created.rtype == st.remove.value.rtype {
          ret := [Set(created)];
        } else {
          ret := [Set(created), Set(st.remove.value)];
        }
      } else {
        ret := [Set(created)];
        if st.remove.Some? {
          var rm := st.remove.value;
          ret := [Set(rm.(name := MakeFqdn(oldRec.zone, oldRec.name, true), rtype := oldRec.rr, changetype := Some(Replace)))] + ret;
        }
      }
    }

    /** `createNS`: one NS set at the canonical zone name holding every
        nameserver, canonical, in the given order. */
    method CreateNS(name: string, nameservers: seq<string>) returns (sets: seq<RRset>)
      ensures |sets| == 1
      ensures sets[0].name == MakeCanonical(name) && sets[0].rtype == "NS" && sets[0].ttl == Some(86400)
      ensures sets[0].comments == None && sets[0].changetype == None
      ensures |sets[0].records| == |nameservers|
      ensures forall i :: 0 <= i < |nameservers| ==> sets[0].records[i] == Member(MakeCanonical(nameservers[i]), false)
    {
      var members: seq<Member> := [];
      var i := 0;
      while i < |nameservers|
        invariant 0 <= i <= |nameservers|
        invariant |members| == i
        invariant forall k :: 0 <= k < i ==> members[k] == Member(MakeCanonical(nameservers[k]), false)
      {
        members := members + [Member(MakeCanonical(nameservers[i]), false)];
        i := i + 1;
      }
      sets := [RRset(MakeCanonical(name), "NS", Some(86400), members, None, None)];
    }

    /** `add_record`: an SOA record is refused before the zone is fetched; any
        other record is added to the fetched snapshot. `meta` is the metadata the
        host record class derives for the new record (the CAA flags, tag and data). */
    method AddRecord(zone: string, subdomain: string, rr: string, param: string, ttl: int, meta: map<string, string>,
                     fetched: seq<RRset>)
      returns (outcome: Outcome)
      modifies this
      ensures rr == "SOA" ==> records == old(records) && fetches == old(fetches)
      ensures rr == "SOA" ==> outcome == if SoaCanonical(param).None? then Raised else Refused
      ensures rr != "SOA" ==> records == fetched && fetches == old(fetches) + 1
      ensures rr != "SOA" ==>
                var r := Record(zone, subdomain, rr, param, Some(ttl), meta);
                outcome == if CaaDataPresent(r) then Patched(AsPatches(Reconcile.AddRecords(fetched, r, same, apexRestricted, dnsTtl)))
                           else Raised
    {
      var p := CanonicalParameter(rr, param);
      if p.None? {
        return Raised;
      }
      if rr == "SOA" {
        return Refused;
      }
      var r := Record(zone, subdomain, rr, p.value, Some(ttl), meta);
      records := fetched;
      fetches := fetches + 1;
      if !CaaDataPresent(r) {
        return Raised;
      }
      var sets := AddRecords(r);
      outcome := Patched(AsPatches(sets));
    }

    /** `remove_record`: an SOA record is refused before the zone is fetched; any
        other record is removed from the fetched snapshot. */
    method RemoveRecord(zone: string, subdomain: string, rr: string, param: string, fetched: seq<RRset>)
      returns (outcome: Outcome)
      modifies this
      ensures rr == "SOA" ==> records == old(records) && fetches == old(fetches)
      ensures rr == "SOA" ==> outcome == if SoaCanonical(param).None? then Raised else Refused
      ensures rr != "SOA" ==> records == fetched && fetches == old(fetches) + 1
      ensures rr != "SOA" ==>
                outcome == Patched(AsPatches(Reconcile.RemoveRecords(fetched, Record(zone, subdomain, rr, param, None, map[]))))
    {
      var p := CanonicalParameter(rr, param);
      if p.None? {
        return Raised;
      }
      if rr == "SOA" {
        return Refused;
      }
      records := fetched;
      fetches := fetches + 1;
      var sets := RemoveRecords(Record(zone, subdomain, rr, p.value, None, map[]));
      outcome := Patched(AsPatches(sets));
    }

    /** `atomicUpdate`: both records are canonicalised, a non-admin may not touch
        an SOA record, and the change is computed on the fetched snapshot. */
    method AtomicUpdate(oldRec: Record, newRec: Record, isAdmin: bool, fetched: seq<RRset>)
      returns (outcome: Outcome)
      modifies this
      ensures var po := CanonicalParameter(oldRec.rr, oldRec.parameter);
              var pn := CanonicalParameter(newRec.rr, newRec.parameter);
              if po.None? || pn.None? then outcome == Raised && records == old(records) && fetches == old(fetches)
              else if !isAdmin && (oldRec.rr == "SOA" || newRec.rr == "SOA") then
                outcome == Refused && records == old(records) && fetches == old(fetches)
              else
                var o := oldRec.(parameter := po.value);
                var n := newRec.(parameter := pn.value);
                records == fetched && fetches == old(fetches) + 1 &&
                outcome == if CaaDataPresent(o) && CaaDataPresent(n) then Patched(Reconcile.ChangeRecords(fetched, o, n, apexRestricted))
                           else Raised
    {
      var po := CanonicalParameter(oldRec.rr, oldRec.parameter);
      if po.None? {
        return Raised;
      }
      var pn := CanonicalParameter(newRec.rr, newRec.parameter);
      if pn.None? {
        return Raised;
      }
      if !isAdmin && (oldRec.rr == "SOA" || newRec.rr == "SOA") {
        return Refused;
      }
      var o := oldRec.(parameter := po.value);
      var n := newRec.(parameter := pn.value);
      records := fetched;
      fetches := fetches + 1;
      if !CaaDataPresent(o) || !CaaDataPresent(n) {
        return Raised;
      }
      var patches := ChangeRecords(o, n);
      outcome := Patched(patches);
    }
  }
}
