/** Name helpers of the provider module: canonical (trailing-dot) names,
    fully-qualified names and the `@` apex marker. */
module Names {
  import opened PhpStrings

  /** `makeCanonical`: a falsy name is returned as it is; any other name loses all
      leading and trailing dots and gains exactly one. (The source's test for a
      trailing dot after trimming never fails, so the dot is always appended.) */
  function MakeCanonical(name: string): (r: string)
    ensures IsFalsy(name) ==> r == name
    ensures !IsFalsy(name) ==> |r| >= 1 && r[|r| - 1] == '.' && (|r| == 1 || r[|r| - 2] != '.')
    ensures !IsFalsy(name) ==> r[..|r| - 1] == Trim(name, '.')
  {
    if IsFalsy(name) then name
    else
      var t := Trim(name, '.');
      assert (t + ".")[..|t|] == t;
      t + "."
  }

  /** Canonicalising a canonical name changes nothing. */
  lemma MakeCanonicalIdempotent(name: string)
    ensures MakeCanonical(MakeCanonical(name)) == MakeCanonical(name)
  {
    if !IsFalsy(name) {
      var t := Trim(name, '.');
      var r := t + ".";
      assert r == MakeCanonical(name);
      assert r[|r| - 1] == '.' && r != "0" && r != "";
      if t == [] {
        assert r == ".";
        assert LTrim(r, '.') == LTrim(r[1..], '.') == [];
        assert Trim(r, '.') == [];
      } else {
        assert r[0] == t[0] != '.';
        assert LTrim(r, '.') == r;
        RTrimAppended(t, '.');
        assert Trim(r, '.') == t;
      }
      assert MakeCanonical(r) == Trim(r, '.') + ".";
    }
  }

  /** `implode('.', array_filter([$subdomain, $zone]))`: falsy parts are dropped. */
  function JoinLabels(subdomain: string, zone: string): string {
    if IsFalsy(subdomain) && IsFalsy(zone) then ""
    else if IsFalsy(subdomain) then zone
    else if IsFalsy(zone) then subdomain
    else subdomain + "." + zone
  }

  /** `makeFqdn`: a subdomain that already contains the zone is kept, otherwise
      the two are joined; optionally the result is made canonical. */
  function MakeFqdn(zone: string, subdomain: string, canonical: bool): (fqdn: string)
    ensures Contains(subdomain, zone) ==> fqdn == (if canonical then MakeCanonical(subdomain) else subdomain)
    ensures !Contains(subdomain, zone) && !canonical ==>
              var joined := JoinLabels(subdomain, zone);
              fqdn <= joined && (fqdn == [] || fqdn[|fqdn| - 1] != '.') &&
              forall i :: |fqdn| <= i < |joined| ==> joined[i] == '.'
    ensures canonical ==> IsFalsy(fqdn) || fqdn[|fqdn| - 1] == '.'
  {
    var full := if Contains(subdomain, zone) then subdomain else RTrim(JoinLabels(subdomain, zone), '.');
    if canonical then MakeCanonical(full) else full
  }

  /** The canonical form asked of `makeFqdn` is the plain form made canonical; for a
      subdomain that does not contain the zone, and a join that is not falsy once its
      trailing dots are gone, it is the joined name without its outer dots plus one. */
  lemma MakeFqdnCanonicalJoin(zone: string, subdomain: string)
    ensures MakeFqdn(zone, subdomain, true) == MakeCanonical(MakeFqdn(zone, subdomain, false))
    ensures !Contains(subdomain, zone) && !IsFalsy(RTrim(JoinLabels(subdomain, zone), '.')) ==>
              MakeFqdn(zone, subdomain, true) == Trim(JoinLabels(subdomain, zone), '.') + "."
  {
    if !Contains(subdomain, zone) && !IsFalsy(RTrim(JoinLabels(subdomain, zone), '.')) {
      var j := JoinLabels(subdomain, zone);
      assert MakeFqdn(zone, subdomain, true) == Trim(RTrim(j, '.'), '.') + ".";
      LTrimOfRTrim(j);
    }
  }

  /** `replaceMarker`: `@` stands for the zone, any other name is qualified by it. */
  function ReplaceMarker(zone: string, name: string): (target: string)
    ensures name == "@" ==> target == MakeCanonical(zone)
    ensures name != "@" && Contains(name, zone) ==> target == MakeCanonical(name)
    ensures IsFalsy(target) || target[|target| - 1] == '.'
  {
    if name == "@" then MakeCanonical(zone) else MakeFqdn(zone, name, true)
  }

  /** A plain label is qualified by the zone: with dot-free ends on both and a
      label that does not contain the zone, the target is `name.zone.`. */
  lemma ReplaceMarkerLabel(zone: string, name: string)
    requires zone != "" && name != "" && name != "@" && !IsFalsy(zone) && !IsFalsy(name)
    requires name[0] != '.' && zone[|zone| - 1] != '.'
    requires !Contains(name, zone)
    ensures ReplaceMarker(zone, name) == name + "." + zone + "."
  {
    var j := name + "." + zone;
    assert JoinLabels(name, zone) == j;
    assert j[0] == name[0] && j[|j| - 1] == zone[|zone| - 1];
    assert RTrim(j, '.') == j;
    assert MakeFqdn(zone, name, true) == MakeCanonical(j);
    CanonicalPlain(j);
  }

  /** A name of two or more characters with no dot at either end only gains the root dot. */
  lemma CanonicalPlain(j: string)
    requires |j| >= 2 && j[0] != '.' && j[|j| - 1] != '.'
    ensures MakeCanonical(j) == j + "."
  {
    TrimNoOp(j, '.');
    assert !IsFalsy(j);
  }

  /** The empty subdomain names the apex: `""` and `"@"` give the same target when
      the zone is not falsy once its trailing dots are gone. */
  lemma ReplaceMarkerApex(zone: string)
    requires !IsFalsy(RTrim(zone, '.'))
    ensures ReplaceMarker(zone, "") == ReplaceMarker(zone, "@") == MakeCanonical(zone)
    ensures ReplaceMarker(zone, "@")[|ReplaceMarker(zone, "@")| - 1] == '.'
  {
    assert zone != "" && !IsFalsy(zone);
    assert !Contains("", zone);
    assert JoinLabels("", zone) == zone;
    var z := RTrim(zone, '.');
    // trimming the trailing dots first does not change what `trim` keeps
    assert Trim(z, '.') == Trim(zone, '.') by {
      LTrimOfRTrim(zone);
    }
  }
}
