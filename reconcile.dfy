/** What `addRecords`, `removeRecords` and `changeRecords` compute: from one record
    intent and the zone's RRset snapshot, the `rrsets` list of a PowerDNS PATCH.
    A PATCH entry replaces (REPLACE) or drops (DELETE) a whole name+type set, so
    each reconciler must carry over the members of other records at that name+type. */
module Reconcile {
  import opened PhpStrings
  import opened Pdns
  import opened Names
  import opened Content

  /** `Record::is` of the host Record class, whose code is not part of this model. */
  type SameRecord = (Record, Record) -> bool

  /** No set of the snapshot sits at (name, type). */
  predicate NoneAt(sets: seq<RRset>, name: string, rtype: string) {
    forall i :: 0 <= i < |sets| ==> !AtLocation(sets[i], name, rtype)
  }

  /** `sets[k]` is the one set of the snapshot at (name, type). */
  predicate OnlyAt(sets: seq<RRset>, k: int, name: string, rtype: string) {
    0 <= k < |sets| && AtLocation(sets[k], name, rtype) &&
    forall i :: 0 <= i < |sets| && i != k ==> !AtLocation(sets[i], name, rtype)
  }

  lemma OnlyAtTail(sets: seq<RRset>, k: int, name: string, rtype: string)
    requires OnlyAt(sets, k, name, rtype) && k > 0
    ensures OnlyAt(sets[1..], k - 1, name, rtype)
  {
    forall i | 0 <= i < |sets[1..]| && i != k - 1
      ensures !AtLocation(sets[1..][i], name, rtype)
    {
      assert sets[1..][i] == sets[i + 1];
    }
  }

  lemma OnlyAtRest(sets: seq<RRset>, name: string, rtype: string)
    requires OnlyAt(sets, 0, name, rtype)
    ensures NoneAt(sets[1..], name, rtype)
  {
    forall i | 0 <= i < |sets[1..]| ensures !AtLocation(sets[1..][i], name, rtype) {
      assert sets[1..][i] == sets[i + 1];
    }
  }

  // ======================= addRecords =======================

  /** The record `addRecords` builds from an existing member to test it with `Record::is`. */
  function Probe(r: Record, s: RRset, m: Member, dnsTtl: int): Record {
    Record(r.zone, r.name, s.rtype, m.content, Some(dnsTtl), map[])
  }

  predicate HasDuplicate(r: Record, s: RRset, same: SameRecord, dnsTtl: int) {
    exists k :: 0 <= k < |s.records| && same(r, Probe(r, s, s.records[k], dnsTtl))
  }

  /** A matching set after `addRecords` has seen it: marked REPLACE, and the new
      content appended unless an existing member is the same record. */
  function AddToSet(s: RRset, r: Record, content: string, same: SameRecord, dnsTtl: int): RRset {
    var marked := s.(changetype := Some(Replace));
    if HasDuplicate(r, marked, same, dnsTtl) then marked
    else marked.(records := marked.records + [Member(content, false)])
  }

  /** The scan over the snapshot: every matching set is emitted, and the scan
      stops after a set that holds a duplicate. */
  function AddScan(sets: seq<RRset>, r: Record, name: string, content: string, same: SameRecord, dnsTtl: int): seq<RRset>
    decreases |sets|
  {
    if sets == [] then []
    else if AtLocation(sets[0], name, r.rr) then
      var s := AddToSet(sets[0], r, content, same, dnsTtl);
      if HasDuplicate(r, sets[0].(changetype := Some(Replace)), same, dnsTtl) then [s]
      else [s] + AddScan(sets[1..], r, name, content, same, dnsTtl)
    else AddScan(sets[1..], r, name, content, same, dnsTtl)
  }

  /** `addRecords`. */
  function AddRecords(snapshot: seq<RRset>, r: Record, same: SameRecord, apexRestricted: bool, dnsTtl: int): (patches: seq<RRset>)
    requires CaaDataPresent(r)
    ensures |patches| >= 1
  {
    var found := AddScan(snapshot, r, ReplaceMarker(r.zone, r.name), ParseParameter(r), same, dnsTtl);
    if found == [] then [FormatRecord(r, apexRestricted)] else found
  }

  lemma {:induction false} AddScanNone(sets: seq<RRset>, r: Record, name: string, content: string, same: SameRecord, dnsTtl: int)
    requires NoneAt(sets, name, r.rr)
    ensures AddScan(sets, r, name, content, same, dnsTtl) == []
    decreases |sets|
  {
    if sets != [] {
      assert !AtLocation(sets[0], name, r.rr);
      forall i | 0 <= i < |sets[1..]| ensures !AtLocation(sets[1..][i], name, r.rr) {
        assert sets[1..][i] == sets[i + 1];
      }
      AddScanNone(sets[1..], r, name, content, same, dnsTtl);
    }
  }

  lemma {:induction false} AddScanOnly(sets: seq<RRset>, k: int, r: Record, name: string, content: string, same: SameRecord, dnsTtl: int)
    requires OnlyAt(sets, k, name, r.rr)
    ensures AddScan(sets, r, name, content, same, dnsTtl) == [AddToSet(sets[k], r, content, same, dnsTtl)]
    decreases |sets|
  {
    if k == 0 {
      OnlyAtRest(sets, name, r.rr);
      AddScanNone(sets[1..], r, name, content, same, dnsTtl);
    } else {
      OnlyAtTail(sets, k, name, r.rr);
      AddScanOnly(sets[1..], k - 1, r, name, content, same, dnsTtl);
    }
  }

  /** One step of the add scan, as the loop over the snapshot takes it. */
  lemma AddScanStep(sets: seq<RRset>, i: int, r: Record, name: string, content: string, same: SameRecord, dnsTtl: int)
    requires 0 <= i < |sets|
    ensures var s := sets[i];
            var marked := s.(changetype := Some(Replace));
            AddScan(sets[i..], r, name, content, same, dnsTtl) ==
              if !AtLocation(s, name, r.rr) then AddScan(sets[i + 1..], r, name, content, same, dnsTtl)
              else if HasDuplicate(r, marked, same, dnsTtl) then [marked]
              else [marked.(records := marked.records + [Member(content, false)])] + AddScan(sets[i + 1..], r, name, content, same, dnsTtl)
  {
    assert sets[i..][0] == sets[i] && sets[i..][1..] == sets[i + 1..];
  }

  /** With no set at the record's name+type, `addRecords` creates one holding just the record. */
  lemma AddCreatesWhenAbsent(snapshot: seq<RRset>, r: Record, same: SameRecord, apexRestricted: bool, dnsTtl: int)
    requires CaaDataPresent(r)
    requires NoneAt(snapshot, ReplaceMarker(r.zone, r.name), r.rr)
    ensures AddRecords(snapshot, r, same, apexRestricted, dnsTtl) == [FormatRecord(r, apexRestricted)]
  {
    AddScanNone(snapshot, r, ReplaceMarker(r.zone, r.name), ParseParameter(r), same, dnsTtl);
  }

  /** With one set at the record's name+type, `addRecords` re-emits that set as a
      REPLACE with all its members in their order, and appends the new content at
      the end unless some member is already the same record. */
  lemma AddKeepsCoLocated(snapshot: seq<RRset>, k: int, r: Record, same: SameRecord, apexRestricted: bool, dnsTtl: int)
    requires CaaDataPresent(r)
    requires OnlyAt(snapshot, k, ReplaceMarker(r.zone, r.name), r.rr)
    ensures var patches := AddRecords(snapshot, r, same, apexRestricted, dnsTtl);
            var s := snapshot[k];
            |patches| == 1 &&
            patches[0] == s.(changetype := Some(Replace),
                             records := s.records + (if HasDuplicate(r, s, same, dnsTtl) then [] else [Member(ParseParameter(r), false)]))
  {
    AddScanOnly(snapshot, k, r, ReplaceMarker(r.zone, r.name), ParseParameter(r), same, dnsTtl);
    var s := snapshot[k];
    assert HasDuplicate(r, s, same, dnsTtl) == HasDuplicate(r, s.(changetype := Some(Replace)), same, dnsTtl) by {
      if HasDuplicate(r, s, same, dnsTtl) {
        var j :| 0 <= j < |s.records| && same(r, Probe(r, s, s.records[j], dnsTtl));
        assert Probe(r, s, s.records[j], dnsTtl) == Probe(r, s.(changetype := Some(Replace)), s.(changetype := Some(Replace)).records[j], dnsTtl);
      }
      if HasDuplicate(r, s.(changetype := Some(Replace)), same, dnsTtl) {
        var s' := s.(changetype := Some(Replace));
        var j :| 0 <= j < |s'.records| && same(r, Probe(r, s', s'.records[j], dnsTtl));
        assert Probe(r, s', s'.records[j], dnsTtl) == Probe(r, s, s.records[j], dnsTtl);
      }
    }
  }

  /** A label shorter than its zone is qualified by it. */
  lemma ShortLabelTarget(r: Record)
    requires r.zone != "" && r.name != "" && r.name != "@" && !IsFalsy(r.zone) && !IsFalsy(r.name)
    requires r.name[0] != '.' && r.zone[|r.zone| - 1] != '.' && |r.name| < |r.zone|
    ensures ReplaceMarker(r.zone, r.name) == r.name + "." + r.zone + "."
  {
    ContainsLonger(r.name, r.zone);
    ReplaceMarkerLabel(r.zone, r.name);
  }

  /** Outside CNAME and CAA, a parameter without tabs is the content as it is. */
  lemma PlainContent(r: Record)
    requires Upper(r.rr) != "CNAME" && Upper(r.rr) != "CAA" && '\t' !in r.parameter
    ensures ParseParameter(r) == r.parameter
  {
  }

  lemma MxContent(r: Record)
    requires r.rr == "MX" && r.parameter == "20 mx2.example.com."
    ensures CaaDataPresent(r) && ParseParameter(r) == r.parameter
  {
    assert Upper("MX") == "MX";
    PlainContent(r);
  }

  /** Adding a second MX exchange to `mail.example.com.`: both exchanges end up in
      one REPLACE of the existing set, which keeps its ttl. */
  lemma AddSecondExchange(existing: RRset, r: Record, same: SameRecord, apexRestricted: bool, dnsTtl: int)
    requires existing == RRset("mail.example.com.", "MX", Some(3600), [Member("10 mx1.example.com.", false)], None, None)
    requires r == Record("example.com", "mail", "MX", "20 mx2.example.com.", Some(14400), map[])
    requires !same(r, Record("example.com", "mail", "MX", "10 mx1.example.com.", Some(dnsTtl), map[]))
    ensures CaaDataPresent(r)
    ensures AddRecords([existing], r, same, apexRestricted, dnsTtl)
         == [RRset("mail.example.com.", "MX", Some(3600),
                   [Member("10 mx1.example.com.", false), Member("20 mx2.example.com.", false)], None, Some(Replace))]
  {
    var both := [Member("10 mx1.example.com.", false), Member("20 mx2.example.com.", false)];
    MailExchange(r);
    FirstExchangeProbe(r, existing, dnsTtl);
    AddToSingleton(existing, r, same, apexRestricted, dnsTtl);
    assert existing.records + [Member(ParseParameter(r), false)] == both;
  }

  /** The existing exchange, probed for a duplicate of the record of the example. */
  lemma FirstExchangeProbe(r: Record, s: RRset, dnsTtl: int)
    requires r == Record("example.com", "mail", "MX", "20 mx2.example.com.", Some(14400), map[])
    requires s == RRset("mail.example.com.", "MX", Some(3600), [Member("10 mx1.example.com.", false)], None, None)
    ensures |s.records| == 1
    ensures Probe(r, s, s.records[0], dnsTtl) == Record("example.com", "mail", "MX", "10 mx1.example.com.", Some(dnsTtl), map[])
  {
  }

  /** The record of the example: it is placed at `mail.example.com.` and its content is its parameter. */
  lemma MailExchange(r: Record)
    requires r == Record("example.com", "mail", "MX", "20 mx2.example.com.", Some(14400), map[])
    ensures CaaDataPresent(r) && ParseParameter(r) == "20 mx2.example.com."
    ensures ReplaceMarker(r.zone, r.name) == "mail.example.com."
  {
    ShortLabelTarget(r);
    MailName();
    MxContent(r);
  }

  /** A record added next to the one member of the only set at its location, and
      not the same record as that member, joins the set in a single REPLACE. */
  lemma AddToSingleton(s: RRset, r: Record, same: SameRecord, apexRestricted: bool, dnsTtl: int)
    requires CaaDataPresent(r) && AtLocation(s, ReplaceMarker(r.zone, r.name), r.rr)
    requires |s.records| == 1 && !same(r, Probe(r, s, s.records[0], dnsTtl))
    ensures AddRecords([s], r, same, apexRestricted, dnsTtl)
         == [s.(changetype := Some(Replace), records := s.records + [Member(ParseParameter(r), false)])]
  {
    NoDuplicateInSingleton(r, s, same, dnsTtl);
    assert OnlyAt([s], 0, ReplaceMarker(r.zone, r.name), r.rr);
    AddKeepsCoLocated([s], 0, r, same, apexRestricted, dnsTtl);
    var patches := AddRecords([s], r, same, apexRestricted, dnsTtl);
    assert patches == [patches[0]];
  }

  lemma MailName()
    ensures "mail" + "." + "example.com" + "." == "mail.example.com."
  {
  }

  lemma NoDuplicateInSingleton(r: Record, s: RRset, same: SameRecord, dnsTtl: int)
    requires |s.records| == 1 && !same(r, Probe(r, s, s.records[0], dnsTtl))
    ensures !HasDuplicate(r, s, same, dnsTtl)
  {
  }

  // ======================= removeRecords =======================

  /** The index of the member `removeRecords` unsets: the first one whose content
      equals the parameter, or the first one when the parameter is falsy; `|records|`
      when there is none. */
  function RemoveIndex(records: seq<Member>, parameter: string): (k: nat)
    ensures k <= |records|
    ensures k < |records| ==> IsFalsy(parameter) || records[k].content == parameter
    ensures !IsFalsy(parameter) ==> forall j :: 0 <= j < k ==> records[j].content != parameter
    ensures IsFalsy(parameter) ==> k == 0
    decreases |records|
  {
    if records == [] || IsFalsy(parameter) || records[0].content == parameter then 0
    else 1 + RemoveIndex(records[1..], parameter)
  }

  /** The index a forward search stops at is the one `RemoveIndex` names. */
  lemma {:induction false} RemoveIndexIs(records: seq<Member>, parameter: string, k: int)
    requires 0 <= k <= |records|
    requires k > 0 ==> !IsFalsy(parameter)
    requires forall j :: 0 <= j < k ==> records[j].content != parameter
    requires k < |records| ==> IsFalsy(parameter) || records[k].content == parameter
    ensures RemoveIndex(records, parameter) == k
    decreases k
  {
    if k > 0 {
      var tail := records[1..];
      assert !IsFalsy(parameter) && records[0].content != parameter;
      forall j | 0 <= j < k - 1 ensures tail[j].content != parameter {
        assert tail[j] == records[j + 1];
      }
      assert k - 1 < |tail| ==> tail[k - 1] == records[k];
      RemoveIndexIs(tail, parameter, k - 1);
      assert RemoveIndex(records, parameter) == 1 + RemoveIndex(tail, parameter);
    }
  }

  /** `unset($records[$k])` followed by `array_values`. */
  function Without(records: seq<Member>, k: nat): seq<Member> {
    if k < |records| then records[..k] + records[k + 1..] else records
  }

  /** Unsetting the member at `k` leaves the others in their order and takes
      exactly one copy of that member out of the set. */
  lemma WithoutOne(records: seq<Member>, k: nat)
    ensures var out := Without(records, k);
            |out| == |records| - (if k < |records| then 1 else 0) &&
            (forall j :: 0 <= j < |out| ==> out[j] == records[if j < k then j else j + 1]) &&
            multiset(records) == multiset(out) + (if k < |records| then multiset{records[k]} else multiset{})
  {
    if k < |records| {
      var front, back := records[..k], records[k + 1..];
      assert Without(records, k) == front + back;
      assert records == front + [records[k]] + back;
      SplitMultiset(front, records[k], back);
    }
  }

  lemma SplitMultiset(front: seq<Member>, m: Member, back: seq<Member>)
    ensures multiset(front + [m] + back) == multiset(front + back) + multiset{m}
  {
    assert multiset(front + [m] + back) == multiset(front) + multiset{m} + multiset(back);
  }

  /** `removeRecords` finds a member to unset exactly when the set is non-empty and
      the parameter is falsy, or some member has the parameter as its content. */
  lemma RemoveFinds(records: seq<Member>, parameter: string)
    ensures RemoveIndex(records, parameter) < |records| <==>
              (records != [] && IsFalsy(parameter)) || exists m :: m in records && m.content == parameter
  {
    var k := RemoveIndex(records, parameter);
    if !IsFalsy(parameter) && exists m :: m in records && m.content == parameter {
      var m :| m in records && m.content == parameter;
      var i :| 0 <= i < |records| && records[i] == m;
      assert k <= i;
    }
  }

  /** With a truthy parameter, every member of other content survives `removeRecords`. */
  lemma RemoveKeepsOthers(records: seq<Member>, parameter: string)
    requires !IsFalsy(parameter)
    ensures forall m :: m in records && m.content != parameter ==> m in Without(records, RemoveIndex(records, parameter))
  {
    var k := RemoveIndex(records, parameter);
    WithoutOne(records, k);
    forall m | m in records && m.content != parameter
      ensures m in Without(records, k)
    {
      var i :| 0 <= i < |records| && records[i] == m;
      if k < |records| {
        assert i != k;
        if i < k { assert Without(records, k)[i] == m; }
        else { assert Without(records, k)[i - 1] == m; }
      }
    }
  }

  /** A matching set after `removeRecords` has seen it: one member unset,
      `comments` dropped, marked REPLACE. */
  function RemoveFromSet(s: RRset, parameter: string): RRset {
    s.(records := Without(s.records, RemoveIndex(s.records, parameter)), comments := None, changetype := Some(Replace))
  }

  function RemoveScan(sets: seq<RRset>, name: string, r: Record): (found: seq<RRset>)
    ensures forall i :: 0 <= i < |found| ==> AtLocation(found[i], name, r.rr)
    decreases |sets|
  {
    if sets == [] then []
    else if AtLocation(sets[0], name, r.rr) then [RemoveFromSet(sets[0], r.parameter)] + RemoveScan(sets[1..], name, r)
    else RemoveScan(sets[1..], name, r)
  }

  /** One step of the remove scan, as the loop over the snapshot takes it. */
  lemma RemoveScanStep(sets: seq<RRset>, i: int, name: string, r: Record)
    requires 0 <= i < |sets|
    ensures RemoveScan(sets[i..], name, r) ==
              if AtLocation(sets[i], name, r.rr) then [RemoveFromSet(sets[i], r.parameter)] + RemoveScan(sets[i + 1..], name, r)
              else RemoveScan(sets[i + 1..], name, r)
  {
    assert sets[i..][0] == sets[i] && sets[i..][1..] == sets[i + 1..];
  }

  /** The DELETE entry `removeRecords` sends when nothing is left to keep. */
  function DeleteStub(name: string, rtype: string): RRset {
    RRset(name, rtype, None, [], None, Some(Delete))
  }

  /** `removeRecords`: every entry targets the record's name+type, and the first
      entry is never a REPLACE that would leave the set empty. */
  function RemoveRecords(snapshot: seq<RRset>, r: Record): (patches: seq<RRset>)
    ensures |patches| >= 1
    ensures forall i :: 0 <= i < |patches| ==> AtLocation(patches[i], ReplaceMarker(r.zone, r.name), r.rr)
    ensures patches[0].records == [] ==> patches == [DeleteStub(ReplaceMarker(r.zone, r.name), r.rr)]
  {
    var name := ReplaceMarker(r.zone, r.name);
    var found := RemoveScan(snapshot, name, r);
    if found == [] || found[0].records == [] then [DeleteStub(name, r.rr)] else found
  }

  lemma {:induction false} RemoveScanNone(sets: seq<RRset>, name: string, r: Record)
    requires NoneAt(sets, name, r.rr)
    ensures RemoveScan(sets, name, r) == []
    decreases |sets|
  {
    if sets != [] {
      forall i | 0 <= i < |sets[1..]| ensures !AtLocation(sets[1..][i], name, r.rr) {
        assert sets[1..][i] == sets[i + 1];
      }
      RemoveScanNone(sets[1..], name, r);
    }
  }

  lemma {:induction false} RemoveScanOnly(sets: seq<RRset>, k: int, name: string, r: Record)
    requires OnlyAt(sets, k, name, r.rr)
    ensures RemoveScan(sets, name, r) == [RemoveFromSet(sets[k], r.parameter)]
    decreases |sets|
  {
    if k == 0 {
      OnlyAtRest(sets, name, r.rr);
      RemoveScanNone(sets[1..], name, r);
    } else {
      OnlyAtTail(sets, k, name, r.rr);
      RemoveScanOnly(sets[1..], k - 1, name, r);
    }
  }

  /** Removing from a name+type with no set is a DELETE of that name+type. */
  lemma RemoveWhenAbsent(snapshot: seq<RRset>, r: Record)
    requires NoneAt(snapshot, ReplaceMarker(r.zone, r.name), r.rr)
    ensures RemoveRecords(snapshot, r) == [DeleteStub(ReplaceMarker(r.zone, r.name), r.rr)]
  {
    RemoveScanNone(snapshot, ReplaceMarker(r.zone, r.name), r);
  }

  /** With one set at the record's name+type, `removeRecords` sends that set minus
      one member as a REPLACE, or a DELETE once no member remains. */
  lemma RemoveKeepsCoLocated(snapshot: seq<RRset>, k: int, r: Record)
    requires OnlyAt(snapshot, k, ReplaceMarker(r.zone, r.name), r.rr)
    ensures var t := RemoveFromSet(snapshot[k], r.parameter);
            RemoveRecords(snapshot, r) == if t.records == [] then [DeleteStub(ReplaceMarker(r.zone, r.name), r.rr)] else [t]
  {
    RemoveScanOnly(snapshot, k, ReplaceMarker(r.zone, r.name), r);
  }

  lemma WwwName()
    ensures "www" + "." + "example.com" + "." == "www.example.com."
  {
  }

  /** Removing `1.1.1.1` from `www.example.com./A` keeps `2.2.2.2` alone in a REPLACE. */
  lemma RemoveOneAddress(r: Record, ttl: Option<int>, comments: Option<seq<Comment>>)
    requires r == Record("example.com", "www", "A", "1.1.1.1", None, map[])
    ensures RemoveRecords([RRset("www.example.com.", "A", ttl, [Member("1.1.1.1", false), Member("2.2.2.2", false)], comments, None)], r)
         == [RRset("www.example.com.", "A", ttl, [Member("2.2.2.2", false)], None, Some(Replace))]
  {
    ShortLabelTarget(r);
    WwwName();
    var two := [Member("1.1.1.1", false), Member("2.2.2.2", false)];
    assert RemoveIndex(two, r.parameter) == 0;
    var s := RRset("www.example.com.", "A", ttl, two, comments, None);
    assert OnlyAt([s], 0, ReplaceMarker(r.zone, r.name), r.rr);
    RemoveKeepsCoLocated([s], 0, r);
    assert RemoveFromSet(s, r.parameter) == RRset("www.example.com.", "A", ttl, [Member("2.2.2.2", false)], None, Some(Replace)) by {
      assert Without(two, 0) == [Member("2.2.2.2", false)];
    }
  }

  /** Removing the last address of `www.example.com./A` deletes the set. */
  lemma RemoveLastAddress(r: Record, ttl: Option<int>, comments: Option<seq<Comment>>)
    requires r == Record("example.com", "www", "A", "2.2.2.2", None, map[])
    ensures RemoveRecords([RRset("www.example.com.", "A", ttl, [Member("2.2.2.2", false)], comments, None)], r)
         == [RRset("www.example.com.", "A", None, [], None, Some(Delete))]
  {
    ShortLabelTarget(r);
    WwwName();
    var one := [Member("2.2.2.2", false)];
    assert RemoveIndex(one, r.parameter) == 0;
    var s := RRset("www.example.com.", "A", ttl, one, comments, None);
    assert OnlyAt([s], 0, ReplaceMarker(r.zone, r.name), r.rr);
    RemoveKeepsCoLocated([s], 0, r);
    assert RemoveFromSet(s, r.parameter).records == [] by {
      assert Without(one, 0) == [];
    }
  }

  // ======================= changeRecords =======================

  /** The members `changeRecords` keeps at the old location: every one whose content
      differs from the old record's content, in their order. */
  function Kept(records: seq<Member>, content: string): (kept: seq<Member>)
    ensures |kept| <= |records|
    decreases |records|
  {
    if records == [] then []
    else
      var last := records[|records| - 1];
      Kept(records[..|records| - 1], content) + (if last.content != content then [last] else [])
  }

  /** `Kept` holds every member of other content as often as the set did, and no
      member of the old content. */
  lemma {:induction false} KeptMembers(records: seq<Member>, content: string)
    ensures forall m: Member :: m in Kept(records, content) ==> m in records && m.content != content
    ensures forall m: Member :: m.content != content ==> multiset(Kept(records, content))[m] == multiset(records)[m]
    decreases |records|
  {
    if records != [] {
      var init := records[..|records| - 1];
      var last := records[|records| - 1];
      KeptMembers(init, content);
      assert records == init + [last];
      assert multiset(records) == multiset(init) + multiset{last};
    }
  }

  lemma {:induction false} KeptNone(records: seq<Member>, content: string)
    requires forall m :: m in records ==> m.content == content
    ensures Kept(records, content) == []
    decreases |records|
  {
    if records != [] {
      assert records[|records| - 1] in records;
      forall m | m in records[..|records| - 1] ensures m.content == content {
        assert m in records;
      }
      KeptNone(records[..|records| - 1], content);
    }
  }

  /** The old-location entry of `changeRecords`: the kept members as a REPLACE, or a
      DELETE without ttl and comments once none is left. */
  function OldLocationPatch(s: RRset, content: string): RRset {
    var kept := Kept(s.records, content);
    if kept == [] then RRset(s.name, s.rtype, None, [], None, Some(Delete))
    else RRset(s.name, s.rtype, s.ttl, kept, s.comments, Some(Replace))
  }

  /** The variables `changeRecords` updates while it scans the snapshot:
      `$remove`, `$add` and `$new['ttl']`. */
  datatype ChangeState = ChangeState(remove: Option<RRset>, add: Option<RRset>, newTtl: Option<int>)

  predicate AtOld(s: RRset, oldRec: Record) {
    AtLocation(s, ReplaceMarker(oldRec.zone, oldRec.name), oldRec.rr)
  }

  predicate AtNew(s: RRset, newRec: Record) {
    AtLocation(s, ReplaceMarker(newRec.zone, newRec.name), newRec.rr)
  }

  /** Whether a set is skipped for a ttl that disagrees with a set (truthy) ttl. */
  predicate TtlDisagrees(s: RRset, ttl: Option<int>) {
    TtlSet(ttl) && s.ttl != ttl
  }


  /** One iteration of the scan over the snapshot. The old location is checked
      first, so a set at a location old and new share is only ever the old one. */
  function ChangeStep(st: ChangeState, s: RRset, oldRec: Record, newRec: Record, content: string): ChangeState {
    if AtOld(s, oldRec) then
      if TtlDisagrees(s, oldRec.ttl) then st
      else ChangeState(Some(OldLocationPatch(s, content)), st.add, if st.newTtl.None? then s.ttl else st.newTtl)
    else if AtNew(s, newRec) then
      if TtlDisagrees(s, st.newTtl) then st else st.(add := Some(s))
    else st
  }

  /** The whole scan. Once set, the new ttl is never overwritten. */
  function ChangeLoop(sets: seq<RRset>, st: ChangeState, oldRec: Record, newRec: Record, content: string): (out: ChangeState)
    ensures st.newTtl.Some? ==> out.newTtl == st.newTtl
    ensures st.remove.Some? ==> out.remove.Some?
    ensures st.add.Some? ==> out.add.Some?
    decreases |sets|
  {
    if sets == [] then st
    else ChangeLoop(sets[1..], ChangeStep(st, sets[0], oldRec, newRec, content), oldRec, newRec, content)
  }

  /** One step of the change scan, as the loop over the snapshot takes it. */
  lemma ChangeLoopStep(sets: seq<RRset>, i: int, st: ChangeState, oldRec: Record, newRec: Record, content: string)
    requires 0 <= i < |sets|
    ensures ChangeLoop(sets[i..], st, oldRec, newRec, content)
         == ChangeLoop(sets[i + 1..], ChangeStep(st, sets[i], oldRec, newRec, content), oldRec, newRec, content)
  {
    assert sets[i..][0] == sets[i] && sets[i..][1..] == sets[i + 1..];
  }

  /** `Kept` grows by one member at a time, as the loop over the members builds it. */
  lemma KeptStep(records: seq<Member>, j: int, content: string)
    requires 0 <= j < |records|
    ensures Kept(records[..j + 1], content)
         == Kept(records[..j], content) + (if records[j].content != content then [records[j]] else [])
  {
    assert records[..j + 1][..j] == records[..j];
  }

  /** A set the scan looks at: one at the old or at the new location. */
  predicate Touches(s: RRset, oldRec: Record, newRec: Record) {
    AtOld(s, oldRec) || AtNew(s, newRec)
  }

  /** The merge branch's old-location entry: renamed to `makeFqdn` of the old
      record (so an apex record is named `@.<zone>.`) and always REPLACE. */
  function Unshifted(rm: RRset, oldRec: Record): RRset {
    rm.(name := MakeFqdn(oldRec.zone, oldRec.name, true), rtype := oldRec.rr, changetype := Some(Replace))
  }

  /** The patch list `changeRecords` builds once the scan is over. */
  function ChangeFinish(st: ChangeState, oldRec: Record, newRec: Record, apexRestricted: bool): (patches: seq<Patch>)
    requires CaaDataPresent(newRec)
    ensures 1 <= |patches| <= 2
    ensures Set(FormatRecord(newRec.(ttl := st.newTtl), apexRestricted)) in patches
  {
    var created := FormatRecord(newRec.(ttl := st.newTtl), apexRestricted);
    if st.add.None? then
      match st.remove
      case None => [Set(created), Blank]
      case Some(rm) =>
        if rm.records == [] && created.name == rm.name && created.rtype == rm.rtype then [Set(created)]
        else [Set(created), Set(rm)]
    else
      match st.remove
      case None => [Set(created)]
      case Some(rm) => [Set(Unshifted(rm, oldRec)), Set(created)]
  }

  /** `changeRecords`: the new record always goes out, with its ttl when it has one. */
  function ChangeRecords(snapshot: seq<RRset>, oldRec: Record, newRec: Record, apexRestricted: bool): (patches: seq<Patch>)
    requires CaaDataPresent(oldRec) && CaaDataPresent(newRec)
    ensures 1 <= |patches| <= 2
    ensures exists ttl :: Set(FormatRecord(newRec.(ttl := ttl), apexRestricted)) in patches
    ensures newRec.ttl.Some? ==> Set(FormatRecord(newRec, apexRestricted)) in patches
  {
    var st := ChangeLoop(snapshot, ChangeState(None, None, newRec.ttl), oldRec, newRec, ParseParameter(oldRec));
    assert newRec.ttl.Some? ==> newRec.(ttl := st.newTtl) == newRec;
    ChangeFinish(st, oldRec, newRec, apexRestricted)
  }

  lemma {:induction false} ChangeLoopIdle(sets: seq<RRset>, st: ChangeState, oldRec: Record, newRec: Record, content: string)
    requires forall i :: 0 <= i < |sets| ==> !Touches(sets[i], oldRec, newRec)
    ensures ChangeLoop(sets, st, oldRec, newRec, content) == st
    decreases |sets|
  {
    if sets != [] {
      assert !Touches(sets[0], oldRec, newRec);
      forall i | 0 <= i < |sets[1..]| ensures !Touches(sets[1..][i], oldRec, newRec) {
        assert sets[1..][i] == sets[i + 1];
      }
      ChangeLoopIdle(sets[1..], st, oldRec, newRec, content);
    }
  }

  /** The scan of a concatenation is the scan of the second part from where the first left off. */
  lemma {:induction false} ChangeLoopAppend(a: seq<RRset>, b: seq<RRset>, st: ChangeState, oldRec: Record, newRec: Record, content: string)
    ensures ChangeLoop(a + b, st, oldRec, newRec, content) == ChangeLoop(b, ChangeLoop(a, st, oldRec, newRec, content), oldRec, newRec, content)
    decreases |a|
  {
    if a == [] {
      assert a + b == b;
    } else {
      assert (a + b)[0] == a[0];
      assert (a + b)[1..] == a[1..] + b;
      ChangeLoopAppend(a[1..], b, ChangeStep(st, a[0], oldRec, newRec, content), oldRec, newRec, content);
    }
  }

  /** With one set the scan looks at, the scan is that one step. */
  lemma ChangeLoopOne(sets: seq<RRset>, k: int, st: ChangeState, oldRec: Record, newRec: Record, content: string)
    requires 0 <= k < |sets|
    requires forall i :: 0 <= i < |sets| && i != k ==> !Touches(sets[i], oldRec, newRec)
    ensures ChangeLoop(sets, st, oldRec, newRec, content) == ChangeStep(st, sets[k], oldRec, newRec, content)
  {
    var before, after := sets[..k], sets[k + 1..];
    assert sets == before + ([sets[k]] + after);
    ChangeLoopAppend(before, [sets[k]] + after, st, oldRec, newRec, content);
    forall i | 0 <= i < |before| ensures !Touches(before[i], oldRec, newRec) {
      assert before[i] == sets[i];
    }
    ChangeLoopIdle(before, st, oldRec, newRec, content);
    var st' := ChangeStep(st, sets[k], oldRec, newRec, content);
    assert ([sets[k]] + after)[1..] == after;
    forall i | 0 <= i < |after| ensures !Touches(after[i], oldRec, newRec) {
      assert after[i] == sets[k + 1 + i];
    }
    ChangeLoopIdle(after, st', oldRec, newRec, content);
  }

  /** With two sets the scan looks at, the scan is those two steps in snapshot order. */
  lemma ChangeLoopTwo(sets: seq<RRset>, i: int, j: int, st: ChangeState, oldRec: Record, newRec: Record, content: string)
    requires 0 <= i < j < |sets|
    requires forall k :: 0 <= k < |sets| && k != i && k != j ==> !Touches(sets[k], oldRec, newRec)
    ensures ChangeLoop(sets, st, oldRec, newRec, content)
         == ChangeStep(ChangeStep(st, sets[i], oldRec, newRec, content), sets[j], oldRec, newRec, content)
  {
    var front, back := sets[..j], sets[j..];
    assert sets == front + back;
    ChangeLoopAppend(front, back, st, oldRec, newRec, content);
    forall k | 0 <= k < |front| && k != i ensures !Touches(front[k], oldRec, newRec) {
      assert front[k] == sets[k];
    }
    ChangeLoopOne(front, i, st, oldRec, newRec, content);
    forall k | 0 <= k < |back| && k != 0 ensures !Touches(back[k], oldRec, newRec) {
      assert back[k] == sets[j + k];
    }
    ChangeLoopOne(back, 0, ChangeStep(st, sets[i], oldRec, newRec, content), oldRec, newRec, content);
  }

  /** A set the scan passes over: elsewhere, or at a location whose ttl check fails. */
  predicate Passed(s: RRset, oldRec: Record, newRec: Record) {
    !Touches(s, oldRec, newRec) ||
    (AtOld(s, oldRec) && TtlDisagrees(s, oldRec.ttl)) ||
    (!AtOld(s, oldRec) && AtNew(s, newRec) && TtlDisagrees(s, newRec.ttl))
  }

  lemma {:induction false} ChangeLoopPassed(sets: seq<RRset>, oldRec: Record, newRec: Record, content: string)
    requires forall i :: 0 <= i < |sets| ==> Passed(sets[i], oldRec, newRec)
    ensures ChangeLoop(sets, ChangeState(None, None, newRec.ttl), oldRec, newRec, content) == ChangeState(None, None, newRec.ttl)
    decreases |sets|
  {
    if sets != [] {
      assert Passed(sets[0], oldRec, newRec);
      forall i | 0 <= i < |sets[1..]| ensures Passed(sets[1..][i], oldRec, newRec) {
        assert sets[1..][i] == sets[i + 1];
      }
      ChangeLoopPassed(sets[1..], oldRec, newRec, content);
    }
  }

  /** When no set is taken at either location (none there, or a ttl that
      disagrees), the new record is created and an empty entry rides along. */
  lemma ChangeNothingFound(snapshot: seq<RRset>, oldRec: Record, newRec: Record, apexRestricted: bool)
    requires CaaDataPresent(oldRec) && CaaDataPresent(newRec)
    requires forall i :: 0 <= i < |snapshot| ==> Passed(snapshot[i], oldRec, newRec)
    ensures ChangeRecords(snapshot, oldRec, newRec, apexRestricted) == [Set(FormatRecord(newRec, apexRestricted)), Blank]
  {
    ChangeLoopPassed(snapshot, oldRec, newRec, ParseParameter(oldRec));
    assert newRec.(ttl := newRec.ttl) == newRec;
  }

  /** The old set is the only one looked at (old and new may share it): the new
      record goes out first with the inherited ttl, followed by the old set's
      remaining members, and the two collapse into one entry exactly when the old
      set is emptied and the new record lands at the same name and type. */
  lemma ChangeAtOldSet(snapshot: seq<RRset>, k: int, oldRec: Record, newRec: Record, apexRestricted: bool)
    requires CaaDataPresent(oldRec) && CaaDataPresent(newRec)
    requires 0 <= k < |snapshot| && AtOld(snapshot[k], oldRec) && !TtlDisagrees(snapshot[k], oldRec.ttl)
    requires forall i :: 0 <= i < |snapshot| && i != k ==> !Touches(snapshot[i], oldRec, newRec)
    ensures var s := snapshot[k];
            var created := FormatRecord(newRec.(ttl := if newRec.ttl.None? then s.ttl else newRec.ttl), apexRestricted);
            var rm := OldLocationPatch(s, ParseParameter(oldRec));
            ChangeRecords(snapshot, oldRec, newRec, apexRestricted)
              == if rm.records == [] && created.name == rm.name && created.rtype == rm.rtype then [Set(created)]
                 else [Set(created), Set(rm)]
  {
    ChangeLoopOne(snapshot, k, ChangeState(None, None, newRec.ttl), oldRec, newRec, ParseParameter(oldRec));
  }

  /** Change in place: when the old set held only the old content and the new
      record lands at the same name and type, exactly one entry goes out. */
  lemma ChangeInPlaceSingle(snapshot: seq<RRset>, k: int, oldRec: Record, newRec: Record, apexRestricted: bool)
    requires CaaDataPresent(oldRec) && CaaDataPresent(newRec)
    requires 0 <= k < |snapshot| && AtOld(snapshot[k], oldRec) && !TtlDisagrees(snapshot[k], oldRec.ttl)
    requires forall i :: 0 <= i < |snapshot| && i != k ==> !Touches(snapshot[i], oldRec, newRec)
    requires forall m :: m in snapshot[k].records ==> m.content == ParseParameter(oldRec)
    requires FormatRecord(newRec, apexRestricted).name == snapshot[k].name
    requires FormatRecord(newRec, apexRestricted).rtype == snapshot[k].rtype
    ensures var s := snapshot[k];
            ChangeRecords(snapshot, oldRec, newRec, apexRestricted)
              == [Set(FormatRecord(newRec.(ttl := if newRec.ttl.None? then s.ttl else newRec.ttl), apexRestricted))]
  {
    var s := snapshot[k];
    KeptNone(s.records, ParseParameter(oldRec));
    FormatRecordTtl(newRec, if newRec.ttl.None? then s.ttl else newRec.ttl, apexRestricted);
    ChangeAtOldSet(snapshot, k, oldRec, newRec, apexRestricted);
  }

  /** Only a set at the new location is taken (the old one is not found): the new
      record alone goes out, and the taken set's other members are not in it. */
  lemma ChangeAtNewSetOnly(snapshot: seq<RRset>, k: int, oldRec: Record, newRec: Record, apexRestricted: bool)
    requires CaaDataPresent(oldRec) && CaaDataPresent(newRec)
    requires 0 <= k < |snapshot| && !AtOld(snapshot[k], oldRec) && AtNew(snapshot[k], newRec)
    requires !TtlDisagrees(snapshot[k], newRec.ttl)
    requires forall i :: 0 <= i < |snapshot| && i != k ==> !Touches(snapshot[i], oldRec, newRec)
    ensures ChangeRecords(snapshot, oldRec, newRec, apexRestricted) == [Set(FormatRecord(newRec, apexRestricted))]
  {
    ChangeLoopOne(snapshot, k, ChangeState(None, None, newRec.ttl), oldRec, newRec, ParseParameter(oldRec));
    assert newRec.(ttl := newRec.ttl) == newRec;
  }

  /** A move onto an existing set: the old-location entry comes first, is always
      REPLACE and carries the old set's remaining members; the new-location entry
      holds only the new record, so the members already at the new location are
      not carried over. */
  lemma ChangeMovesOntoSet(snapshot: seq<RRset>, ko: int, kn: int, oldRec: Record, newRec: Record, apexRestricted: bool)
    requires CaaDataPresent(oldRec) && CaaDataPresent(newRec)
    requires 0 <= ko < |snapshot| && 0 <= kn < |snapshot| && ko != kn
    requires AtOld(snapshot[ko], oldRec) && !TtlDisagrees(snapshot[ko], oldRec.ttl)
    requires !AtOld(snapshot[kn], oldRec) && AtNew(snapshot[kn], newRec)
    requires forall i :: 0 <= i < |snapshot| && i != ko && i != kn ==> !Touches(snapshot[i], oldRec, newRec)
    requires var ttl := if newRec.ttl.None? then snapshot[ko].ttl else newRec.ttl;
             !TtlDisagrees(snapshot[kn], if ko < kn then ttl else newRec.ttl)
    ensures var ttl := if newRec.ttl.None? then snapshot[ko].ttl else newRec.ttl;
            var rm := OldLocationPatch(snapshot[ko], ParseParameter(oldRec));
            var patches := ChangeRecords(snapshot, oldRec, newRec, apexRestricted);
            patches == [Set(Unshifted(rm, oldRec)), Set(FormatRecord(newRec.(ttl := ttl), apexRestricted))] &&
            patches[0].rrset.changetype == Some(Replace) &&
            patches[0].rrset.records == Kept(snapshot[ko].records, ParseParameter(oldRec)) &&
            patches[1].rrset.records == [Member(ParseParameter(newRec), false)]
  {
    var st0 := ChangeState(None, None, newRec.ttl);
    var content := ParseParameter(oldRec);
    if ko < kn {
      ChangeLoopTwo(snapshot, ko, kn, st0, oldRec, newRec, content);
    } else {
      ChangeLoopTwo(snapshot, kn, ko, st0, oldRec, newRec, content);
    }
    FormatRecordTtl(newRec, if newRec.ttl.None? then snapshot[ko].ttl else newRec.ttl, apexRestricted);
  }
}
