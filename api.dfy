/** The PowerDNS API client's packet-cache bookkeeping: which (name, type) pairs
    were changed recently enough that a read may still be answered from the
    server's query cache, and how `do` normalises a call before it is sent. */
module PdnsApi {
  import opened PhpStrings
  import opened Pdns

  /** The deadline used when `AUTH_PDNS_DEADLINE` is not defined. */
  const DefaultDeadline := 20

  /** The methods `do` passes on to the server. */
  predicate AllowedMethod(verb: string) {
    verb in ["GET", "POST", "PUT", "PATCH", "DELETE"]
  }

  /** `recordHash`, keyed by the string `crc32` is taken of: the type, a dot and
      the hostname without its leading and trailing dots. */
  function RecordHash(hostname: string, rr: string): (key: string)
    ensures |key| > |rr| && key[|rr|] == '.' && key[..|rr|] == rr
    ensures '.' !in rr ==> '.' !in key[..|rr|]
    ensures key[|rr| + 1..] == Trim(hostname, '.')
  {
    var key := rr + "." + Trim(hostname, '.');
    assert key[..|rr|] == rr;
    key
  }

  /** A canonical name and its dot-free form share one entry. */
  lemma HashTrimsDots(hostname: string, rr: string)
    ensures RecordHash(hostname, rr) == RecordHash(Trim(hostname, '.'), rr)
    ensures RecordHash(hostname + ".", rr) == RecordHash(hostname, rr)
  {
    TrimIdempotent(hostname, '.');
    TrimTrailingDot(hostname);
  }

  /** `trim` takes a trailing dot away with the others. */
  lemma TrimTrailingDot(s: string)
    ensures Trim(s + ".", '.') == Trim(s, '.')
  {
    LTrimDotAppended(s);
    DotAfter(LTrim(s, '.'));
  }

  /** `ltrim` of a string with a dot appended: the dot goes too when nothing else is left. */
  lemma {:induction false} LTrimDotAppended(s: string)
    ensures LTrim(s + ".", '.') == if LTrim(s, '.') == [] then [] else LTrim(s, '.') + "."
    decreases |s|
  {
    if s == [] {
      assert LTrim(".", '.') == LTrim([], '.');
    } else if s[0] == '.' {
      assert (s + ".")[0] == '.' && (s + ".")[1..] == s[1..] + ".";
      assert LTrim(s + ".", '.') == LTrim(s[1..] + ".", '.');
      assert LTrim(s, '.') == LTrim(s[1..], '.');
      LTrimDotAppended(s[1..]);
    } else {
      assert (s + ".")[0] == s[0];
      assert LTrim(s + ".", '.') == s + "." && LTrim(s, '.') == s;
    }
  }

  lemma DotAfter(l: string)
    ensures RTrim(l + ".", '.') == RTrim(l, '.')
  {
    assert (l + ".")[..|l|] == l;
  }

  /** For record types without a dot, two keys agree exactly when the types agree
      and the trimmed hostnames agree: entries of different sets never collide. */
  lemma HashInjective(h1: string, r1: string, h2: string, r2: string)
    requires '.' !in r1 && '.' !in r2
    ensures RecordHash(h1, r1) == RecordHash(h2, r2) <==> r1 == r2 && Trim(h1, '.') == Trim(h2, '.')
  {
    var k1, k2 := RecordHash(h1, r1), RecordHash(h2, r2);
    if k1 == k2 {
      assert forall j :: 0 <= j < |r1| ==> k1[j] != '.';
      assert forall j :: 0 <= j < |r2| ==> k2[j] != '.';
      assert |r1| == |r2|;
      assert r1 == k1[..|r1|] == r2;
      assert Trim(h1, '.') == k1[|r1| + 1..] == Trim(h2, '.');
    }
  }

  /** `dirty()` called without arguments looks up `"ANY."`, the key only a set of
      type `ANY` with an all-dot (or empty) name could have flagged. */
  lemma DefaultQueryKey(name: string, rtype: string)
    requires '.' !in rtype
    ensures RecordHash("" + "." + "", "ANY") == "ANY."
    ensures RecordHash(name, rtype) == RecordHash("" + "." + "", "ANY") <==> rtype == "ANY" && Trim(name, '.') == ""
  {
    var dot := "" + "." + "";
    assert dot == "." && dot[1..] == [];
    assert LTrim(dot, '.') == [];
    assert Trim(dot, '.') == [];
    assert RecordHash(dot, "ANY") == "ANY" + "." + [];
    HashInjective(name, rtype, dot, "ANY");
  }

  /** A `do` call that bumps the modification time: every method but GET, on an
      endpoint that is not found at offset 0 of `"cache/flush?"`. The source asks
      whether the literal occurs at offset 0 of the endpoint the other way round,
      so this holds for an endpoint that is a prefix of the literal, not one that
      starts with it. */
  predicate CountsAsModification(verb: string, endpoint: string): (counts: bool)
    ensures counts <==>
              (verb != "GET" &&
               (|endpoint| > |"cache/flush?"| ||
                exists i :: 0 <= i < |endpoint| && i < |"cache/flush?"| && endpoint[i] != "cache/flush?"[i]))
  {
    verb != "GET" && !(endpoint <= "cache/flush?")
  }

  /** A cache flush for a domain is longer than the literal, so it counts as a
      modification; only the prefixes of the literal are exempt. */
  lemma FlushCountsAsModification(domain: string)
    ensures CountsAsModification("PUT", "cache/flush?domain=" + domain)
    ensures !CountsAsModification("PUT", "cache/flush?") && !CountsAsModification("PUT", "")
  {
    var e := "cache/flush?domain=" + domain;
    assert |e| > |"cache/flush?"|;
  }

  /** The path the request goes to: `servers/localhost/` is put in front of an
      endpoint that does not mention `servers/` anywhere. */
  function RequestPath(endpoint: string): (path: string)
    ensures Contains(path, "servers/")
    ensures Contains(endpoint, "servers/") ==> path == endpoint
    ensures !Contains(endpoint, "servers/") ==> path == "servers/localhost/" + endpoint
  {
    if Contains(endpoint, "servers/") then endpoint
    else
      ContainsPrefix("servers/localhost/" + endpoint, "servers/");
      "servers/localhost/" + endpoint
  }

  /** Normalising a path that is already normalised changes nothing. */
  lemma RequestPathIdempotent(endpoint: string)
    ensures RequestPath(RequestPath(endpoint)) == RequestPath(endpoint)
  {
  }

  /** The `params` argument of `do`: `NoParams` for `null` or the empty array
      (both falsy), otherwise a body that may carry an `rrsets` list. */
  datatype Params = NoParams | Params(rrsets: Option<seq<Patch>>)

  /** What `do` comes to: `Rejected` for an unknown method (an empty result and no
      state change), `Raised` when flagging the sets throws, otherwise the request
      that would be sent. */
  datatype Outcome = Rejected | Raised | Sent(verb: string, path: string, params: Params)

  /** The sets `flagDirty` gets through before it meets an entry that is not an
      RRset (the `[]` that `changeRecords` can emit), where reading its `name`
      throws. */
  function FlagPrefix(sets: seq<Patch>): (prefix: seq<RRset>)
    ensures |prefix| <= |sets|
    ensures forall i :: 0 <= i < |prefix| ==> sets[i] == Set(prefix[i])
    ensures |prefix| < |sets| ==> sets[|prefix|] == Blank
    decreases |sets|
  {
    if sets == [] then []
    else match sets[0]
      case Blank => []
      case Set(s) => [s] + FlagPrefix(sets[1..])
  }

  /** The deadline map after `sets` were flagged, one after the other, at `at`. */
  function Flagged(cache: map<string, int>, sets: seq<RRset>, at: int): map<string, int>
    decreases |sets|
  {
    if sets == [] then cache
    else
      var last := sets[|sets| - 1];
      Flagged(cache, sets[..|sets| - 1], at)[RecordHash(last.name, last.rtype) := at]
  }

  /** No set of `sets` has `key`. */
  predicate Unflagged(sets: seq<RRset>, key: string) {
    forall i :: 0 <= i < |sets| ==> RecordHash(sets[i].name, sets[i].rtype) != key
  }

  /** Flagging records `at` under the key of every set... */
  lemma {:induction false} FlaggedHas(cache: map<string, int>, sets: seq<RRset>, at: int, i: int)
    requires 0 <= i < |sets|
    ensures var key := RecordHash(sets[i].name, sets[i].rtype);
            key in Flagged(cache, sets, at) && Flagged(cache, sets, at)[key] == at
    decreases |sets|
  {
    var key := RecordHash(sets[i].name, sets[i].rtype);
    if i < |sets| - 1 {
      var front := sets[..|sets| - 1];
      assert front[i] == sets[i];
      FlaggedHas(cache, front, at, i);
      UpdateKeeps(Flagged(cache, front, at), key, RecordHash(sets[|sets| - 1].name, sets[|sets| - 1].rtype), at);
    }
  }

  /** Writing `at` under any key keeps an entry that already holds `at`. */
  lemma UpdateKeeps(m: map<string, int>, key: string, k: string, at: int)
    requires key in m && m[key] == at
    ensures key in m[k := at] && m[k := at][key] == at
  {
  }

  /** ...and leaves every other entry as it was. */
  lemma {:induction false} FlaggedLeaves(cache: map<string, int>, sets: seq<RRset>, at: int, key: string)
    requires Unflagged(sets, key)
    ensures key in Flagged(cache, sets, at) <==> key in cache
    ensures key in cache ==> Flagged(cache, sets, at)[key] == cache[key]
    decreases |sets|
  {
    if sets != [] {
      var front := sets[..|sets| - 1];
      assert RecordHash(sets[|sets| - 1].name, sets[|sets| - 1].rtype) != key;
      assert Unflagged(front, key) by {
        forall i | 0 <= i < |front| ensures RecordHash(front[i].name, front[i].rtype) != key {
          assert front[i] == sets[i];
        }
      }
      FlaggedLeaves(cache, front, at, key);
    }
  }

  /** The step the loop of `flagDirty` takes. */
  lemma FlaggedStep(cache: map<string, int>, sets: seq<RRset>, i: int, at: int)
    requires 0 <= i < |sets|
    ensures Flagged(cache, sets[..i + 1], at) == Flagged(cache, sets[..i], at)[RecordHash(sets[i].name, sets[i].rtype) := at]
  {
    assert sets[..i + 1][..i] == sets[..i];
  }

  /** `dirty`'s verdict for `key` at time `now`: within the deadline of the last
      modification, flagged, and flagged within the deadline of it. */
  predicate DirtyVerdict(now: int, lastModification: int, cache: map<string, int>, deadline: int, key: string) {
    now - lastModification <= deadline && key in cache && lastModification - cache[key] <= deadline
  }

  /** A set flagged by the last modification reads as dirty, under any spelling of
      its name with the same trimmed form, until the deadline has passed. */
  lemma FreshlyFlaggedIsDirty(cache: map<string, int>, sets: seq<RRset>, k: int, at: int, now: int, deadline: int, hostname: string)
    requires 0 <= k < |sets| && 0 <= deadline
    requires Trim(hostname, '.') == Trim(sets[k].name, '.')
    ensures DirtyVerdict(now, at, Flagged(cache, sets, at), deadline, RecordHash(hostname, sets[k].rtype))
       <==> now - at <= deadline
  {
    FlaggedHas(cache, sets, at, k);
    assert RecordHash(hostname, sets[k].rtype) == RecordHash(sets[k].name, sets[k].rtype);
  }

  /** Once the deadline has passed since the last modification nothing is dirty. */
  lemma ExpiredIsClean(now: int, lastModification: int, cache: map<string, int>, deadline: int)
    requires now - lastModification > deadline
    ensures forall key :: !DirtyVerdict(now, lastModification, cache, deadline, key)
  {
  }

  /** The dirty window: an A set `a.example.com.` changed at 0 with the default
      deadline reads dirty at 10 and clean at 25... */
  lemma DirtyWindow(s: RRset)
    requires s.name == "a.example.com." && s.rtype == "A"
    ensures var cache := Flagged(map[], [s], 0);
            DirtyVerdict(10, 0, cache, DefaultDeadline, RecordHash("a" + "." + "example.com", "A")) &&
            !DirtyVerdict(25, 0, cache, DefaultDeadline, RecordHash("a" + "." + "example.com", "A"))
  {
    var plain := "a" + "." + "example.com";
    assert s.name == plain + "." by { ExampleHost(); }
    assert Trim(plain, '.') == Trim(s.name, '.') by { TrimTrailingDot(plain); }
    assert [s][0] == s;
    FreshlyFlaggedIsDirty(map[], [s], 0, 0, 10, DefaultDeadline, plain);
    FreshlyFlaggedIsDirty(map[], [s], 0, 0, 25, DefaultDeadline, plain);
  }

  lemma ExampleHost()
    ensures "a" + "." + "example.com" + "." == "a.example.com."
  {
  }

  /** ...while a set of another name or type is never dirty. */
  lemma DirtyWindowOthers(s: RRset, hostname: string, rr: string, t: int)
    requires s.name == "a.example.com." && s.rtype == "A"
    requires '.' !in rr && (rr != "A" || Trim(hostname, '.') != Trim(s.name, '.'))
    ensures !DirtyVerdict(t, 0, Flagged(map[], [s], 0), DefaultDeadline, RecordHash(hostname, rr))
  {
    HashInjective(hostname, rr, s.name, s.rtype);
    assert [s][0] == s;
    FlaggedLeaves(map[], [s], 0, RecordHash(hostname, rr));
  }

  /** The API client's packet-cache state: the (process-wide) last modification
      time and the deadline map. */
  class Api {
    /** Seconds a change may stay in the server's query cache. */
    const deadline: int
    /** `self::$lastModification`: the time of the last destructive call. */
    var lastModification: int
    /** `self::$deadlineCache`: key of a changed set to the time it was flagged. */
    var deadlineCache: map<string, int>

    /** The deadline is `AUTH_PDNS_DEADLINE` when that is defined, 20 otherwise;
        the static fields start at 0 and empty. */
    constructor (configured: Option<int>)
      ensures deadline == configured.GetOr(DefaultDeadline)
      ensures lastModification == 0 && deadlineCache == map[]
    {
      deadline := configured.GetOr(DefaultDeadline);
      lastModification := 0;
      deadlineCache := map[];
    }

    /** `getLastModification`. */
    method GetLastModification() returns (t: int)
      ensures t == lastModification
    {
      t := lastModification;
    }

    /** `dirty`: once the deadline has passed since the last modification the map
        is emptied and nothing is dirty; otherwise a set is dirty when it was
        flagged within the deadline of that modification. */
    method Dirty(now: int, domain: string, subdomain: string, rr: string) returns (dirty: bool)
      modifies this
      ensures dirty == DirtyVerdict(now, old(lastModification), old(deadlineCache), deadline, RecordHash(subdomain + "." + domain, rr))
      ensures lastModification == old(lastModification)
      ensures deadlineCache == if now - old(lastModification) > deadline then map[] else old(deadlineCache)
    {
      var t := GetLastModification();
      if now - t > deadline {
        deadlineCache := map[];
        return false;
      }
      var key := RecordHash(subdomain + "." + domain, rr);
      if key !in deadlineCache {
        return false;
      }
      dirty := t - deadlineCache[key] <= deadline;
    }

    /** `flagDirty`: record the last modification time under the key of every
        set in `rrsets`. An entry that is not an RRset throws, after the sets
        before it were flagged. */
    method FlagDirty(params: Params) returns (raised: bool)
      modifies this
      ensures lastModification == old(lastModification)
      ensures params.NoParams? || params.rrsets.None? ==> !raised && deadlineCache == old(deadlineCache)
      ensures params.Params? && params.rrsets.Some? ==>
                var sets := params.rrsets.value;
                (raised <==> Blank in sets) &&
                deadlineCache == Flagged(old(deadlineCache), FlagPrefix(sets), lastModification)
    {
      raised := false;
      if params.NoParams? || params.rrsets.None? {
        return;
      }
      var sets := params.rrsets.value;
      ghost var prefix := FlagPrefix(sets);
      var i := 0;
      while i < |sets|
        invariant 0 <= i <= |prefix|
        invariant deadlineCache == Flagged(old(deadlineCache), prefix[..i], lastModification)
        invariant lastModification == old(lastModification)
      {
        if sets[i].Blank? {
          assert Blank in sets;
          assert i == |prefix|;
          assert prefix[..i] == prefix;
          return true;
        }
        var s := sets[i].rrset;
        assert i < |prefix|;
        assert prefix[i] == s;
        FlaggedStep(old(deadlineCache), prefix, i, lastModification);
        var t := GetLastModification();
        deadlineCache := deadlineCache[RecordHash(s.name, s.rtype) := t];
        i := i + 1;
      }
      assert |prefix| == |sets| && prefix[..i] == prefix;
      assert Blank !in sets by {
        forall j | 0 <= j < |sets| ensures sets[j] != Blank {
          assert sets[j] == Set(prefix[j]);
        }
      }
    }

    /** `do` up to the request: reject an unknown method, strip leading slashes,
        count the call as a modification (and flag its sets) unless it is a GET
        or its endpoint is a prefix of `"cache/flush?"`, then aim it at
        `servers/localhost/` unless the endpoint names a server. */
    method Do(verb: string, endpoint: string, params: Params, now: int) returns (outcome: Outcome)
      modifies this
      ensures !AllowedMethod(Upper(verb)) ==> outcome == Rejected && unchanged(this)
      ensures AllowedMethod(Upper(verb)) && !CountsAsModification(Upper(verb), LTrim(endpoint, '/')) ==>
                unchanged(this) && outcome == Sent(Upper(verb), RequestPath(LTrim(endpoint, '/')), params)
      ensures AllowedMethod(Upper(verb)) && CountsAsModification(Upper(verb), LTrim(endpoint, '/')) ==>
                lastModification == now &&
                (params.NoParams? || params.rrsets.None? ==>
                   deadlineCache == old(deadlineCache) &&
                   outcome == Sent(Upper(verb), RequestPath(LTrim(endpoint, '/')), params)) &&
                (params.Params? && params.rrsets.Some? ==>
                   deadlineCache == Flagged(old(deadlineCache), FlagPrefix(params.rrsets.value), now) &&
                   outcome == (if Blank in params.rrsets.value then Raised
                               else Sent(Upper(verb), RequestPath(LTrim(endpoint, '/')), params)))
    {
      var m := Upper(verb);
      if !AllowedMethod(m) {
        return Rejected;
      }
      var e := endpoint;
      if |e| > 0 && e[0] == '/' {
        e := LTrim(e, '/');
      }
      assert e == LTrim(endpoint, '/');
      if CountsAsModification(m, e) {
        lastModification := now;
        if !params.NoParams? {
          var raised := FlagDirty(params);
          if raised {
            return Raised;
          }
        }
      }
      outcome := Sent(m, RequestPath(e), params);
    }
  }
}
