/** The per-type content formatters of the provider's record class: trailing
    dots for host-name targets, quoting for SPF text and URI data. */
module RecordFormat {
  import opened PhpStrings
  import Pdns
  import Content

  /** The metadata after `appendDot`: `data` ends in exactly one dot when it is
      present, and nothing else changes. */
  function DotMeta(meta: map<string, string>): (m: map<string, string>)
    ensures forall k :: k in m <==> k in meta
    ensures "data" in meta ==> "data" in m && RTrim(m["data"], '.') == RTrim(meta["data"], '.') &&
                               |m["data"]| >= 1 && m["data"][|m["data"]| - 1] == '.'
    ensures forall k :: k in meta && k != "data" ==> m[k] == meta[k]
  {
    if "data" in meta then meta["data" := DotTerminated(meta["data"])] else meta
  }

  /** Normalising the data twice is the same as once. */
  lemma DotMetaIdempotent(meta: map<string, string>)
    ensures DotMeta(DotMeta(meta)) == DotMeta(meta)
  {
    if "data" in meta {
      DotTerminatedIdempotent(meta["data"]);
    }
  }

  /** A value that neither starts nor ends with a quote, wrapped in quotes, loses
      exactly that pair to `trim`. */
  lemma QuotePair(x: string)
    requires x != [] && x[0] != '"' && x[|x| - 1] != '"'
    ensures Trim("\"" + x + "\"", '"') == x
  {
    var q := "\"" + x + "\"";
    assert q[0] == '"' && q[1] == x[0];
    LTrimExact(q, 1, '"');
    assert q[1..] == x + ['"'];
    RTrimAppended(x, '"');
  }

  /** The SPF text `formatSpf` produces: the value without surrounding quotes,
      made to end in exactly one dot, then quoted. The quotes are the only pair:
      trimming them gives back the dotted value, which is two shorter. */
  function SpfText(p: string): (q: string)
    ensures |q| >= 3 && q[0] == '"' && q[|q| - 1] == '"' && q[|q| - 2] == '.'
    ensures Trim(q, '"') == DotTerminated(Trim(p, '"'))
    ensures |q| == |DotTerminated(Trim(p, '"'))| + 2
  {
    var t := Trim(p, '"');
    var inner := DotTerminated(t);
    assert inner[0] != '"' by {
      var z := RTrim(t, '.');
      if z != [] {
        assert inner[0] == z[0] == t[0];
      }
    }
    QuotePair(inner);
    "\"" + inner + "\""
  }

  /** Formatting SPF text twice is the same as once. */
  lemma SpfIdempotent(p: string)
    ensures SpfText(SpfText(p)) == SpfText(p)
  {
    DotTerminatedIdempotent(Trim(p, '"'));
  }

  /** The URI data `formatUri` stores: the data without surrounding quotes, quoted
      once, so trimming the quotes takes exactly two characters away. */
  function UriData(d: string): (q: string)
    ensures |q| >= 2 && q[0] == '"' && q[|q| - 1] == '"'
    ensures Trim(q, '"') == Trim(d, '"')
    ensures |q| == |Trim(d, '"')| + 2
  {
    Content.QuotedTrim(d);
    "\"" + Trim(d, '"') + "\""
  }

  /** Quoting URI data twice is the same as once. */
  lemma UriDataIdempotent(d: string)
    ensures UriData(UriData(d)) == UriData(d)
  {
  }

  /** `implode(' ', [priority, weight, data])`: a missing priority or weight is
      `null`, which `implode` writes as nothing. */
  function UriParameter(meta: map<string, string>): string
    requires "data" in meta
  {
    Pdns.MetaOr(meta, "priority", "") + " " + Pdns.MetaOr(meta, "weight", "") + " " + meta["data"]
  }

  /** The metadata after `formatUri`. */
  function UriMeta(meta: map<string, string>): (m: map<string, string>)
    requires "data" in meta
    ensures (forall k :: k in m <==> k in meta) && "data" in m && m["data"] == UriData(meta["data"])
    ensures forall k :: k in meta && k != "data" ==> m[k] == meta[k]
  {
    meta["data" := UriData(meta["data"])]
  }

  /** Running `formatUri` on its own output changes neither the metadata nor the
      parameter built from it. */
  lemma UriIdempotent(meta: map<string, string>)
    requires "data" in meta
    ensures UriMeta(UriMeta(meta)) == UriMeta(meta)
    ensures UriParameter(UriMeta(UriMeta(meta))) == UriParameter(UriMeta(meta))
  {
    UriDataIdempotent(meta["data"]);
  }

  /** The provider's record: the parameter the formatters rewrite in place, its
      metadata and its ttl. */
  class Record {
    var parameter: string
    var meta: map<string, string>
    var ttl: int

    /** A new record's ttl is the module's `DNS_TTL`. */
    constructor (parameter: string, meta: map<string, string>, dnsTtl: int)
      ensures this.parameter == parameter && this.meta == meta && ttl == dnsTtl
    {
      this.parameter := parameter;
      this.meta := meta;
      ttl := dnsTtl;
    }

    /** `appendDot`: parameter and `data` metadata end in exactly one dot. */
    method AppendDot()
      modifies this
      ensures parameter == DotTerminated(old(parameter)) && meta == DotMeta(old(meta)) && ttl == old(ttl)
    {
      if "data" in meta {
        meta := meta["data" := RTrim(meta["data"], '.') + "."];
      }
      parameter := RTrim(parameter, '.') + ".";
    }

    method FormatCaa()
      modifies this
      ensures parameter == DotTerminated(old(parameter)) && meta == DotMeta(old(meta)) && ttl == old(ttl)
    {
      AppendDot();
    }

    method FormatCname()
      modifies this
      ensures parameter == DotTerminated(old(parameter)) && meta == DotMeta(old(meta)) && ttl == old(ttl)
    {
      AppendDot();
    }

    method FormatDname()
      modifies this
      ensures parameter == DotTerminated(old(parameter)) && meta == DotMeta(old(meta)) && ttl == old(ttl)
    {
      AppendDot();
    }

    method FormatNs()
      modifies this
      ensures parameter == DotTerminated(old(parameter)) && meta == DotMeta(old(meta)) && ttl == old(ttl)
    {
      AppendDot();
    }

    method FormatMx()
      modifies this
      ensures parameter == DotTerminated(old(parameter)) && meta == DotMeta(old(meta)) && ttl == old(ttl)
    {
      AppendDot();
    }

    method FormatSrv()
      modifies this
      ensures parameter == DotTerminated(old(parameter)) && meta == DotMeta(old(meta)) && ttl == old(ttl)
    {
      AppendDot();
    }

    /** `formatSpf`: strip the quotes, append the dot (to the `data` metadata as
        well), quote again. */
    method FormatSpf()
      modifies this
      ensures parameter == SpfText(old(parameter)) && meta == DotMeta(old(meta)) && ttl == old(ttl)
    {
      parameter := Trim(parameter, '"');
      AppendDot();
      parameter := "\"" + parameter + "\"";
    }

    /** `formatUri`: quote the `data` metadata once and make the parameter
        `priority weight data`. Without `data`, `trim(null)` throws under strict
        types and nothing changes. */
    method FormatUri() returns (raised: bool)
      modifies this
      ensures raised <==> "data" !in old(meta)
      ensures raised ==> unchanged(this)
      ensures !raised ==> meta == UriMeta(old(meta)) && parameter == UriParameter(meta) && ttl == old(ttl)
    {
      if "data" !in meta {
        return true;
      }
      raised := false;
      meta := meta["data" := "\"" + Trim(meta["data"], '"') + "\""];
      parameter := Pdns.MetaOr(meta, "priority", "") + " " + Pdns.MetaOr(meta, "weight", "") + " " + meta["data"];
    }
  }
}
