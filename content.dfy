/** Content builders of the provider module: the per-type record content sent to
    PowerDNS, the single-record RRset, the apex-CNAME switch and the SOA/NS sets
    that seed a new zone. */
module Content {
  import opened PhpStrings
  import opened Pdns
  import opened Names

  /** `hasCnameApexRestriction`: true unless `AUTH_DNS_RECURSION` is defined and
      `AUTH_PDNS_RECURSION` is on. The first constant is only checked for
      definedness; the value read is the second one. */
  function HasCnameApexRestriction(dnsRecursionDefined: bool, pdnsRecursion: bool): (restricted: bool)
    ensures !dnsRecursionDefined ==> restricted
    ensures dnsRecursionDefined ==> (restricted <==> !pdnsRecursion)
  {
    if !dnsRecursionDefined then true else !pdnsRecursion
  }

  // ---- PHP's `%d` conversion, for the CAA flags field ----

  predicate IsDigit(ch: char) {
    '0' <= ch <= '9'
  }

  /** The length of the run of decimal digits at the start of `s`. */
  function DigitRun(s: string): (n: nat)
    ensures n <= |s|
    ensures forall i :: 0 <= i < n ==> IsDigit(s[i])
    ensures n == |s| || !IsDigit(s[n])
    decreases |s|
  {
    if |s| > 0 && IsDigit(s[0]) then 1 + DigitRun(s[1..]) else 0
  }

  /** The value of a string of decimal digits. */
  function DigitsValue(ds: string): nat
    requires forall i :: 0 <= i < |ds| ==> IsDigit(ds[i])
    decreases |ds|
  {
    if ds == [] then 0
    else
      assert IsDigit(ds[|ds| - 1]);
      DigitsValue(ds[..|ds| - 1]) * 10 + (ds[|ds| - 1] as int - '0' as int)
  }

  /** The integer PHP reads from a string: leading whitespace, an optional sign and
      the decimal digits that follow; 0 when there are none. */
  function PhpIntval(s: string): int {
    var t := s[SkipSpace(s, 0)..];
    if |t| > 0 && (t[0] == '-' || t[0] == '+') then
      var ds := t[1..][..DigitRun(t[1..])];
      var v: int := DigitsValue(ds);
      if t[0] == '-' then -v else v
    else
      DigitsValue(t[..DigitRun(t)])
  }

  /** The decimal text of a natural number. */
  function NatText(n: nat): (r: string)
    ensures |r| >= 1 && forall i :: 0 <= i < |r| ==> IsDigit(r[i])
    ensures DigitsValue(r) == n
    decreases n
  {
    var d := [('0' as int + n % 10) as char];
    if n < 10 then d
    else
      var r := NatText(n / 10) + d;
      assert r[..|r| - 1] == NatText(n / 10);
      r
  }

  /** `sprintf('%d', $i)`. */
  function IntText(i: int): string {
    if i < 0 then "-" + NatText(-i) else NatText(i)
  }

  /** Reading back a rendered integer gives the integer. */
  lemma IntTextRoundTrip(i: int)
    ensures PhpIntval(IntText(i)) == i
  {
    var s := IntText(i);
    assert SkipSpace(s, 0) == 0;
    assert s[0..] == s;
    var ds := NatText(if i < 0 then -i else i);
    assert DigitRun(ds) == |ds| by { DigitRunAll(ds); }
    assert ds[..|ds|] == ds;
    if i < 0 {
      assert s[1..] == ds;
    }
  }

  lemma {:induction false} DigitRunAll(ds: string)
    requires forall i :: 0 <= i < |ds| ==> IsDigit(ds[i])
    ensures DigitRun(ds) == |ds|
    decreases |ds|
  {
    if |ds| > 0 {
      DigitRunAll(ds[1..]);
    }
  }

  // ---- parseParameter ----

  /** Under `strict_types`, `trim(null)` raises a TypeError, so a CAA record must
      carry its `data` metadata. */
  predicate CaaDataPresent(r: Record) {
    Upper(r.rr) == "CAA" ==> "data" in r.meta
  }

  /** `"<flags> <tag> \"<data>\""`, the data stripped of surrounding quotes first. */
  function CaaContent(flags: string, tag: string, data: string): string {
    IntText(PhpIntval(flags)) + " " + tag + " \"" + Trim(data, '"') + "\""
  }

  /** Data that is already quoted gives the same CAA content as the bare data:
      the quoting is applied exactly once. */
  lemma CaaQuotedOnce(flags: string, tag: string, data: string)
    ensures CaaContent(flags, tag, "\"" + Trim(data, '"') + "\"") == CaaContent(flags, tag, data)
    ensures PhpIntval(IntText(PhpIntval(flags))) == PhpIntval(flags)
  {
    QuotedTrim(data);
    IntTextRoundTrip(PhpIntval(flags));
  }

  /** Trimming the quotes off a quoted value gives back the unquoted value. */
  lemma QuotedTrim(data: string)
    ensures Trim("\"" + Trim(data, '"') + "\"", '"') == Trim(data, '"')
  {
    var t := Trim(data, '"');
    assert "\"" + t + "\"" == ['"'] + t + ['"'];
    WrapTrim(t, '"');
  }

  function ReplaceTabs(s: string): (r: string)
    ensures |r| == |s| && '\t' !in r
    ensures forall i :: 0 <= i < |s| ==> r[i] == (if s[i] == '\t' then ' ' else s[i])
  {
    seq(|s|, i requires 0 <= i < |s| => if s[i] == '\t' then ' ' else s[i])
  }

  /** `parseParameter`: the RRset member content a record stands for. */
  function ParseParameter(r: Record): (content: string)
    requires CaaDataPresent(r)
    ensures Upper(r.rr) == "CNAME" && (r.parameter == "@" || r.parameter == "127.0.0.1") ==>
              content == MakeCanonical(r.zone)
    ensures Upper(r.rr) == "CNAME" && IsFalsy(r.parameter) ==> content == r.parameter
    ensures Upper(r.rr) == "CNAME" && !IsFalsy(r.parameter) && r.parameter != "@" && r.parameter != "127.0.0.1" ==>
              |content| >= 1 && content[|content| - 1] == '.' && content[..|content| - 1] == Trim(r.parameter, '.')
    ensures Upper(r.rr) == "CAA" ==>
              content == CaaContent(MetaOr(r.meta, "flags", ""), MetaOr(r.meta, "tag", ""), r.meta["data"])
    ensures Upper(r.rr) != "CNAME" && Upper(r.rr) != "CAA" ==>
              |content| == |r.parameter| && '\t' !in content &&
              forall i :: 0 <= i < |content| && r.parameter[i] != '\t' ==> content[i] == r.parameter[i]
    ensures Upper(r.rr) != "CNAME" && Upper(r.rr) != "CAA" ==>
              forall i :: 0 <= i < |content| && r.parameter[i] == '\t' ==> content[i] == ' '
  {
    var t := Upper(r.rr);
    if t == "CNAME" then
      MakeCanonical(if r.parameter == "@" || r.parameter == "127.0.0.1" then r.zone else r.parameter)
    else if t == "CAA" then
      CaaContent(MetaOr(r.meta, "flags", ""), MetaOr(r.meta, "tag", ""), r.meta["data"])
    else
      ReplaceTabs(r.parameter)
  }

  // ---- formatRecord ----

  /** The subdomain `formatRecord` uses: the `@` marker becomes the empty label. */
  function ApexLabel(name: string): string {
    if name == "@" then "" else name
  }

  /** `formatRecord`: a brand-new RRset holding just this record. */
  function FormatRecord(r: Record, apexRestricted: bool): (s: RRset)
    requires CaaDataPresent(r)
    ensures s.changetype == Some(Replace) && s.comments == None && s.ttl == r.ttl
    ensures s.records == [Member(ParseParameter(r), false)]
    ensures s.name == MakeFqdn(r.zone, ApexLabel(r.name), true)
    ensures s.rtype == "ALIAS" <==>
              Upper(r.rr) == "ALIAS" || ((r.name == "" || r.name == "@") && r.rr == "CNAME" && !apexRestricted)
    ensures s.rtype != "ALIAS" ==> s.rtype == Upper(r.rr)
  {
    var name := ApexLabel(r.name);
    var rtype := if name == "" && r.rr == "CNAME" && !apexRestricted then "ALIAS" else Upper(r.rr);
    RRset(MakeFqdn(r.zone, name, true), rtype, r.ttl, [Member(ParseParameter(r), false)], None, Some(Replace))
  }

  /** The record's ttl reaches `formatRecord`'s output only as the set's ttl. */
  lemma FormatRecordTtl(r: Record, ttl: Option<int>, apexRestricted: bool)
    requires CaaDataPresent(r)
    ensures FormatRecord(r.(ttl := ttl), apexRestricted) == FormatRecord(r, apexRestricted).(ttl := ttl)
  {
    assert ParseParameter(r.(ttl := ttl)) == ParseParameter(r);
  }

  /** With `AUTH_DNS_RECURSION` undefined, `formatRecord` keeps every record's
      type, whatever `AUTH_PDNS_RECURSION` says: the constant it reads is not the
      one it tests. */
  lemma UndefinedRecursionKeepsType(r: Record, pdnsRecursion: bool)
    requires CaaDataPresent(r)
    ensures FormatRecord(r, HasCnameApexRestriction(false, pdnsRecursion)).rtype == Upper(r.rr)
  {
  }

  /** An apex CNAME goes out as ALIAS exactly when `AUTH_DNS_RECURSION` is defined
      and `AUTH_PDNS_RECURSION` is on. */
  lemma ApexCnameAlias(r: Record, dnsRecursionDefined: bool, pdnsRecursion: bool)
    requires CaaDataPresent(r) && r.rr == "CNAME" && (r.name == "" || r.name == "@")
    ensures FormatRecord(r, HasCnameApexRestriction(dnsRecursionDefined, pdnsRecursion)).rtype == "ALIAS"
        <==> dnsRecursionDefined && pdnsRecursion
  {
    var restricted := HasCnameApexRestriction(dnsRecursionDefined, pdnsRecursion);
    assert restricted <==> !(dnsRecursionDefined && pdnsRecursion);
    assert Upper(r.rr) == "CNAME" by { UpperCname(r.rr); }
    var s := FormatRecord(r, restricted);
    assert s.rtype == "ALIAS" <==> !restricted;
  }

  lemma UpperCname(rr: string)
    requires rr == "CNAME"
    ensures Upper(rr) == "CNAME" && Upper(rr) != "ALIAS"
  {
  }

  // ---- zone seeding: createSOA and the SOA branch of canonicalizeRecord ----

  /** The SOA RNAME built from a contact: canonical form, and when the contact is a
      mail address, `\.` is unescaped, the dots before the first `@` are escaped and
      that `@` becomes a dot. */
  function SoaRName(contact: string): string {
    MailboxToRName(MakeCanonical(contact))
  }

  function MailboxToRName(soa: string): string {
    if !Contains(soa, "@") then soa
    else
      var u := StrReplace("\\.", ".", soa);
      assert '@' in u by {
        ContainsChar(soa, '@');
        StrReplaceKeeps("\\.", ".", soa, '@');
      }
      var pos := FirstIndex(u, '@');
      StrReplace(".", "\\.", u[..pos]) + "." + u[pos + 1..]
  }

  /** A mail-address contact becomes `local.domain.`, with the dots of the local part escaped. */
  lemma SoaRNameOfMailbox(local: string, domain: string)
    requires '@' !in local && '\\' !in local && '\\' !in domain
    requires local == [] || local[0] != '.'
    requires domain != [] && domain[|domain| - 1] != '.'
    ensures SoaRName(local + "@" + domain) == StrReplace(".", "\\.", local) + "." + domain + "."
    ensures '.' !in local ==> SoaRName(local + "@" + domain) == local + "." + domain + "."
  {
    MailboxSoa(local, domain);
    if '.' !in local {
      StrReplaceAbsent(".", "\\.", local);
    }
  }

  lemma MailboxSoa(local: string, domain: string)
    requires '@' !in local && '\\' !in local && '\\' !in domain
    requires local == [] || local[0] != '.'
    requires domain != [] && domain[|domain| - 1] != '.'
    ensures SoaRName(local + "@" + domain) == StrReplace(".", "\\.", local) + "." + domain + "."
  {
    var rest := domain + ".";
    var escaped := StrReplace(".", "\\.", local);
    calc {
      SoaRName(local + "@" + domain);
      MailboxToRName(MakeCanonical(local + "@" + domain));
      { CanonicalMailbox(local, domain); }
      MailboxToRName(local + "@" + rest);
      { assert '\\' !in rest; MailboxRName(local, rest); }
      escaped + "." + rest;
      { assert escaped + "." + rest == escaped + "." + domain + "."; }
      escaped + "." + domain + ".";
    }
  }

  lemma CanonicalMailbox(local: string, domain: string)
    requires local == [] || local[0] != '.'
    requires domain != [] && domain[|domain| - 1] != '.'
    ensures MakeCanonical(local + "@" + domain) == local + "@" + (domain + ".")
  {
    var contact := local + "@" + domain;
    assert contact[|local|] == '@';
    assert contact != "" && contact != "0";
    assert contact[|contact| - 1] == domain[|domain| - 1];
    TrimNoOp(contact, '.');
    var soa := contact + ".";
    assert soa[..|soa| - 1] == contact;
    assert soa == local + "@" + (domain + ".");
  }

  lemma MailboxRName(local: string, rest: string)
    requires '@' !in local && '\\' !in local && '\\' !in rest
    ensures MailboxToRName(local + "@" + rest) == StrReplace(".", "\\.", local) + "." + rest
  {
    var soa := local + "@" + rest;
    assert soa[|local|] == '@';
    ContainsChar(soa, '@');
    assert '\\' !in soa;
    StrReplaceAbsent("\\.", ".", soa);
    var pos := FirstIndex(soa, '@');
    assert soa[..|local|] == local;
    assert pos == |local|;
    assert soa[pos + 1..] == rest;
  }

  /** `createSOA`: the SOA RRset of a new zone; `today` stands for `date('Ymd')`. */
  function CreateSoa(name: string, primary: string, contact: string, today: string): (sets: seq<RRset>)
    ensures |sets| == 1 && sets[0].rtype == "SOA" && sets[0].name == MakeCanonical(name)
    ensures sets[0].ttl == Some(86400) && sets[0].changetype == None && sets[0].comments == None
    ensures |sets[0].records| == 1 && !sets[0].records[0].disabled
    ensures sets[0].records[0].content ==
              MakeCanonical(primary) + " " + SoaRName(contact) + " " + today + "01" + " 3600 1800 604800 600"
  {
    var content := MakeCanonical(primary) + " " + SoaRName(contact) + " " + today + "01" + " 3600 1800 604800 600";
    [RRset(MakeCanonical(name), "SOA", Some(86400), [Member(content, false)], None, None)]
  }

  /** The SOA branch of `canonicalizeRecord`: the first two whitespace-separated
      fields (primary and contact) get exactly one trailing dot and the fields are
      rejoined with single spaces. `None` is the TypeError `rtrim(null)` raises
      when there is no second field. A falsy parameter is left alone. */
  function SoaCanonical(param: string): (r: Option<string>)
    ensures IsFalsy(param) ==> r == Some(param)
    ensures !IsFalsy(param) ==> (r.None? <==> |SplitSpace(param)| < 2)
  {
    if IsFalsy(param) then Some(param)
    else
      var parts := SplitSpace(param);
      if |parts| < 2 then None
      else Some(JoinSpace(FixSoaFields(parts)))
  }

  function FixSoaFields(parts: seq<string>): (fixed: seq<string>)
    requires |parts| >= 2
    ensures |fixed| == |parts| && fixed[2..] == parts[2..]
    ensures forall k :: 2 <= k < |parts| ==> fixed[k] == parts[k]
    ensures fixed[0] == DotTerminated(parts[0]) && fixed[1] == DotTerminated(parts[1])
  {
    parts[0 := DotTerminated(parts[0])][1 := DotTerminated(parts[1])]
  }

  /** The branch fails exactly when a truthy parameter has fewer than two fields;
      otherwise the fields of the result are those of the input, the first two with
      their trailing dots collapsed to one. */
  lemma {:induction false} SoaCanonicalFields(param: string)
    requires !IsFalsy(param)
    ensures SoaCanonical(param).None? <==> |SplitSpace(param)| < 2
    ensures SoaCanonical(param).Some? ==>
              var parts := SplitSpace(param);
              var out := SplitSpace(SoaCanonical(param).value);
              |out| == |parts| && out[2..] == parts[2..] &&
              out[0] == DotTerminated(parts[0]) && out[1] == DotTerminated(parts[1])
  {
    var parts := SplitSpace(param);
    if |parts| >= 2 {
      FixedFieldsSplit(parts);
    }
  }

  lemma FixedFieldsSplit(parts: seq<string>)
    requires |parts| >= 2
    requires forall k :: 0 <= k < |parts| ==> NoSpace(parts[k])
    requires forall k :: 0 < k < |parts| - 1 ==> parts[k] != ""
    ensures SplitSpace(JoinSpace(FixSoaFields(parts))) == FixSoaFields(parts)
  {
    var fixed := FixSoaFields(parts);
    DotNoSpace(parts[0]);
    DotNoSpace(parts[1]);
    forall k | 0 <= k < |fixed| ensures NoSpace(fixed[k]) {
      if k >= 2 {
        assert fixed[k] == parts[k];
      }
    }
    forall k | 0 < k < |fixed| - 1 ensures fixed[k] != "" {
      if k >= 2 {
        assert fixed[k] == parts[k];
      }
    }
    SplitJoin(fixed);
  }

  lemma DotNoSpace(s: string)
    requires NoSpace(s)
    ensures NoSpace(DotTerminated(s))
  {
    var r := RTrim(s, '.');
    assert forall i :: 0 <= i < |r| ==> r[i] == s[i];
  }

  /** Canonicalising an already canonical SOA parameter changes nothing. */
  lemma SoaCanonicalIdempotent(param: string)
    requires SoaCanonical(param).Some?
    ensures SoaCanonical(SoaCanonical(param).value) == SoaCanonical(param)
  {
    if !IsFalsy(param) {
      var parts := SplitSpace(param);
      var fixed := FixSoaFields(parts);
      var q := JoinSpace(fixed);
      FixedFieldsSplit(parts);
      assert q != "" && q != "0" by {
        assert fixed[0] <= q;
        assert q == fixed[0] + " " + JoinSpace(fixed[1..]);
        assert q[|fixed[0]|] == ' ';
      }
      DotTerminatedIdempotent(parts[0]);
      DotTerminatedIdempotent(parts[1]);
      assert FixSoaFields(fixed) == fixed;
    }
  }
}
