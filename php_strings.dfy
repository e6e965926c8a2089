/** The PHP string built-ins the adapter relies on, over `seq<char>`.
    Each one follows PHP 8's behaviour for the arguments the adapter passes. */
module PhpStrings {

  /** PHP's `empty()` on a string (and a string used as a condition):
      only "" and "0" are falsy. */
  predicate IsFalsy(s: string) {
    s == "" || s == "0"
  }

  /** `ltrim($s, c)` with a one-character list. */
  function LTrim(s: string, c: char): (r: string)
    ensures |r| <= |s| && r == s[|s| - |r|..]
    ensures r == [] || r[0] != c
    ensures forall i :: 0 <= i < |s| - |r| ==> s[i] == c
    decreases |s|
  {
    if |s| > 0 && s[0] == c then LTrim(s[1..], c) else s
  }

  /** `rtrim($s, c)` with a one-character list. */
  function RTrim(s: string, c: char): (r: string)
    ensures |r| <= |s| && r == s[..|r|]
    ensures r == [] || r[|r| - 1] != c
    ensures forall i :: |r| <= i < |s| ==> s[i] == c
    decreases |s|
  {
    if |s| > 0 && s[|s| - 1] == c then RTrim(s[..|s| - 1], c) else s
  }

  /** `trim($s, c)` with a one-character list. */
  function Trim(s: string, c: char): (r: string)
    ensures r == [] || (r[0] != c && r[|r| - 1] != c)
    ensures c !in s ==> r == s
  {
    RTrim(LTrim(s, c), c)
  }

  lemma TrimIdempotent(s: string, c: char)
    ensures Trim(Trim(s, c), c) == Trim(s, c)
  {
    TrimNoOp(Trim(s, c), c);
  }

  /** A string that neither starts nor ends with `c` is its own trim. */
  lemma TrimNoOp(s: string, c: char)
    requires s == [] || (s[0] != c && s[|s| - 1] != c)
    ensures Trim(s, c) == s
  {
    assert LTrim(s, c) == s;
  }

  /** Appending `c` to a string that does not end in `c` is undone by `rtrim`. */
  lemma RTrimAppended(s: string, c: char)
    requires s == [] || s[|s| - 1] != c
    ensures RTrim(s + [c], c) == s
  {
    assert (s + [c])[..|s|] == s;
  }

  /** A string that neither starts nor ends with `c`, wrapped in one `c` on each
      side, loses exactly that pair to `trim`. */
  lemma WrapTrim(x: string, c: char)
    requires x == [] || (x[0] != c && x[|x| - 1] != c)
    ensures Trim([c] + x + [c], c) == x
  {
    var q := [c] + x + [c];
    if x == [] {
      assert q == [c, c];
      LTrimExact(q, 2, c);
      assert q[2..] == [];
    } else {
      assert q[0] == c && q[1] == x[0];
      LTrimExact(q, 1, c);
      assert q[1..] == x + [c];
      RTrimAppended(x, c);
    }
  }

  /** `trim` of a string is unchanged by taking off its trailing dots first. */
  lemma LTrimOfRTrim(s: string)
    requires RTrim(s, '.') != []
    ensures RTrim(LTrim(RTrim(s, '.'), '.'), '.') == RTrim(LTrim(s, '.'), '.')
  {
    var z := RTrim(s, '.');
    var l := LTrim(s, '.');
    var n := |s| - |l|;
    assert forall i :: 0 <= i < |z| ==> z[i] == s[i];
    assert forall i :: 0 <= i < |l| ==> l[i] == s[n + i];
    // the leading dots of `s` all lie inside `z`, since `z` ends in a non-dot
    assert n < |z| by {
      assert z[|z| - 1] == s[|z| - 1];
    }
    DotCut(s, z, l, n);
  }

  /** The slicing behind `LTrimOfRTrim`: `z` is `s` without its trailing dots, `l`
      is `s` without its `n` leading dots, and the leading dots end inside `z`. */
  lemma DotCut(s: string, z: string, l: string, n: nat)
    requires n < |z| <= |s| && |l| == |s| - n
    requires forall i :: 0 <= i < |z| ==> z[i] == s[i]
    requires forall i :: 0 <= i < |l| ==> l[i] == s[n + i]
    requires forall i :: 0 <= i < n ==> s[i] == '.'
    requires l[0] != '.'
    requires forall i :: |z| <= i < |s| ==> s[i] == '.'
    ensures RTrim(LTrim(z, '.'), '.') == RTrim(l, '.')
  {
    assert z[n] == l[0];
    LTrimExact(z, n, '.');
    var k := |z| - n;
    assert z[n..] == l[..k];
    RTrimDrops(l, k, '.');
  }

  /** `ltrim` of a string whose first `n` characters are exactly its leading `c`s. */
  lemma {:induction false} LTrimExact(z: string, n: nat, c: char)
    requires n <= |z|
    requires forall i :: 0 <= i < n ==> z[i] == c
    requires n == |z| || z[n] != c
    ensures LTrim(z, c) == z[n..]
    decreases n
  {
    if n > 0 {
      LTrimExact(z[1..], n - 1, c);
      assert z[1..][n - 1..] == z[n..];
    }
  }

  /** `rtrim` ignores a tail made only of `c`s. */
  lemma {:induction false} RTrimDrops(l: string, k: nat, c: char)
    requires k <= |l|
    requires forall i :: k <= i < |l| ==> l[i] == c
    ensures RTrim(l, c) == RTrim(l[..k], c)
    decreases |l| - k
  {
    if k < |l| {
      assert l[..|l| - 1][..k] == l[..k];
      RTrimDrops(l[..|l| - 1], k, c);
    } else {
      assert l[..k] == l;
    }
  }

  /** `rtrim($s, c) . c`: the idiom the adapter uses for "exactly one trailing dot". */
  function DotTerminated(s: string): (r: string)
    ensures |r| >= 1 && r[|r| - 1] == '.'
    ensures |r| == 1 || r[|r| - 2] != '.'
    ensures RTrim(r, '.') == RTrim(s, '.')
  {
    RTrimAppended(RTrim(s, '.'), '.');
    RTrim(s, '.') + "."
  }

  /** Collapsing trailing dots twice is the same as once. */
  lemma DotTerminatedIdempotent(s: string)
    ensures DotTerminated(DotTerminated(s)) == DotTerminated(s)
  {
  }

  /** `strpos($haystack, $needle) !== false` (PHP 8: the empty needle is found at 0). */
  predicate Contains(haystack: string, needle: string)
    decreases |haystack|
  {
    needle <= haystack || (|haystack| > 0 && Contains(haystack[1..], needle))
  }

  /** A one-character needle is found exactly when the character occurs. */
  lemma {:induction false} ContainsChar(h: string, c: char)
    ensures Contains(h, [c]) <==> c in h
    decreases |h|
  {
    if |h| > 0 {
      ContainsChar(h[1..], c);
      assert h == [h[0]] + h[1..];
    }
  }

  /** A needle longer than the haystack is never found. */
  lemma {:induction false} ContainsLonger(h: string, n: string)
    requires |n| > |h|
    ensures !Contains(h, n)
    decreases |h|
  {
    if |h| > 0 {
      ContainsLonger(h[1..], n);
    }
  }

  /** A string contains every one of its prefixes. */
  lemma ContainsPrefix(h: string, p: string)
    requires p <= h
    ensures Contains(h, p)
  {
  }

  /** `strtoupper` on one character (PHP 8 is ASCII-only). */
  function UpperChar(ch: char): char {
    if 'a' <= ch <= 'z' then (ch as int - 32) as char else ch
  }

  /** `strtoupper($s)`. */
  function Upper(s: string): (r: string)
    ensures |r| == |s|
    ensures forall i :: 0 <= i < |s| ==> r[i] == UpperChar(s[i])
  {
    seq(|s|, i requires 0 <= i < |s| => UpperChar(s[i]))
  }

  /** `str_replace($search, $replace, $subject)` for one search string:
      a left-to-right scan that replaces non-overlapping occurrences. */
  function StrReplace(search: string, replace: string, subject: string): string
    requires |search| > 0
    decreases |subject|
  {
    if |subject| == 0 then []
    else if search <= subject then replace + StrReplace(search, replace, subject[|search|..])
    else [subject[0]] + StrReplace(search, replace, subject[1..])
  }

  /** A subject that does not hold the first character of the search string is left as it is. */
  lemma {:induction false} StrReplaceAbsent(search: string, replace: string, subject: string)
    requires |search| > 0 && search[0] !in subject
    ensures StrReplace(search, replace, subject) == subject
    decreases |subject|
  {
    if |subject| > 0 {
      assert !(search <= subject) by { assert subject[0] != search[0]; }
      StrReplaceAbsent(search, replace, subject[1..]);
      assert subject == [subject[0]] + subject[1..];
    }
  }

  /** A character outside both the search and the replacement strings survives the replacement. */
  lemma {:induction false} StrReplaceKeeps(search: string, replace: string, subject: string, c: char)
    requires |search| > 0 && c !in search && c in subject
    ensures c in StrReplace(search, replace, subject)
    decreases |subject|
  {
    if search <= subject {
      var rest := subject[|search|..];
      assert subject == search + rest;
      StrReplaceKeeps(search, replace, rest, c);
    } else if subject[0] != c {
      assert subject == [subject[0]] + subject[1..];
      StrReplaceKeeps(search, replace, subject[1..], c);
    }
  }

  /** `strpos($s, c)` for a character known to occur: the first index of `c`. */
  function FirstIndex(s: string, c: char): (i: nat)
    requires c in s
    ensures i < |s| && s[i] == c && c !in s[..i]
    decreases |s|
  {
    if s[0] == c then 0
    else
      assert c in s[1..] by { assert s == [s[0]] + s[1..]; }
      var j := FirstIndex(s[1..], c);
      assert s[..j + 1] == [s[0]] + s[1..][..j];
      j + 1
  }

  /** The characters PCRE's `\s` matches without the `u` modifier. */
  predicate IsSpace(ch: char) {
    ch == ' ' || ch == '\t' || ch == '\n' || ch == '\r' || ch as int == 11 || ch as int == 12
  }

  predicate NoSpace(s: string) {
    forall i :: 0 <= i < |s| ==> !IsSpace(s[i])
  }

  /** The index of the first whitespace character of `s[from..]`, or `|s|`. */
  function NextSpace(s: string, from: nat): (i: nat)
    requires from <= |s|
    ensures from <= i <= |s|
    ensures i < |s| ==> IsSpace(s[i])
    ensures forall k :: from <= k < i ==> !IsSpace(s[k])
    decreases |s| - from
  {
    if from == |s| || IsSpace(s[from]) then from else NextSpace(s, from + 1)
  }

  /** The index just past the run of whitespace that starts at `from`. */
  function SkipSpace(s: string, from: nat): (j: nat)
    requires from <= |s|
    ensures from <= j <= |s|
    ensures j < |s| ==> !IsSpace(s[j])
    ensures forall k :: from <= k < j ==> IsSpace(s[k])
    decreases |s| - from
  {
    if from < |s| && IsSpace(s[from]) then SkipSpace(s, from + 1) else from
  }

  /** `preg_split('/\s+/', $s)`: the pieces between maximal whitespace runs,
      keeping the empty piece before a leading run and after a trailing one. */
  function SplitSpace(s: string): (parts: seq<string>)
    ensures |parts| >= 1
    ensures forall k :: 0 <= k < |parts| ==> NoSpace(parts[k])
    ensures forall k :: 0 < k < |parts| - 1 ==> parts[k] != ""
    decreases |s|
  {
    var i := NextSpace(s, 0);
    if i == |s| then [s]
    else
      var j := SkipSpace(s, i);
      var rest := SplitSpace(s[j..]);
      assert j < |s| ==> s[j..][0] == s[j];
      [s[..i]] + rest
  }

  /** `implode(' ', $parts)`. */
  function JoinSpace(parts: seq<string>): (r: string)
    requires |parts| >= 1
    ensures parts[0] <= r
    decreases |parts|
  {
    if |parts| == 1 then parts[0] else parts[0] + " " + JoinSpace(parts[1..])
  }

  /** The first whitespace character at or after `from`, when it is the one at `i`. */
  lemma {:induction false} NextSpaceAt(s: string, from: nat, i: nat)
    requires from <= i < |s| && IsSpace(s[i])
    requires forall k :: from <= k < i ==> !IsSpace(s[k])
    ensures NextSpace(s, from) == i
    decreases i - from
  {
    if from < i {
      NextSpaceAt(s, from + 1, i);
    }
  }

  /** A single whitespace character followed by the end or by a non-space is skipped alone. */
  lemma SkipOneSpace(s: string, i: nat)
    requires i < |s| && IsSpace(s[i])
    requires i + 1 == |s| || !IsSpace(s[i + 1])
    ensures SkipSpace(s, i) == i + 1
  {
    assert SkipSpace(s, i + 1) == i + 1;
  }

  /** A joined list does not start with whitespace: its first character is the
      first piece's, and an empty first piece is the whole list. */
  lemma JoinHead(rest: seq<string>)
    requires |rest| >= 1 && NoSpace(rest[0])
    requires rest[0] == "" ==> |rest| == 1
    ensures JoinSpace(rest) == [] || !IsSpace(JoinSpace(rest)[0])
  {
    if rest[0] != "" {
      assert rest[0] <= JoinSpace(rest);
      assert JoinSpace(rest)[0] == rest[0][0];
    }
  }

  /** A string without whitespace is a single piece. */
  lemma SplitSingle(p: string)
    requires NoSpace(p)
    ensures SplitSpace(p) == [p]
  {
    var i := NextSpace(p, 0);
    assert i == |p|;
  }

  /** A piece, one space and a string that does not start with whitespace split
      into that piece and the pieces of the string. */
  lemma SplitCons(p: string, tail: string)
    requires NoSpace(p) && (tail == [] || !IsSpace(tail[0]))
    ensures SplitSpace(p + " " + tail) == [p] + SplitSpace(tail)
  {
    var s := p + " " + tail;
    assert forall k :: 0 <= k < |p| ==> s[k] == p[k];
    NextSpaceAt(s, 0, |p|);
    assert s[..|p|] == p;
    assert s[|p| + 1..] == tail;
    assert tail != [] ==> s[|p| + 1] == tail[0];
    SkipOneSpace(s, |p|);
  }

  /** Splitting a joined list gives the list back when no piece holds whitespace
      and only the first and the last piece may be empty. */
  lemma {:induction false} SplitJoin(parts: seq<string>)
    requires |parts| >= 1
    requires forall k :: 0 <= k < |parts| ==> NoSpace(parts[k])
    requires forall k :: 0 < k < |parts| - 1 ==> parts[k] != ""
    ensures SplitSpace(JoinSpace(parts)) == parts
    decreases |parts|
  {
    var p := parts[0];
    assert NoSpace(p);
    if |parts| == 1 {
      SplitSingle(p);
    } else {
      var rest := parts[1..];
      assert forall k :: 0 <= k < |rest| ==> rest[k] == parts[k + 1];
      JoinHead(rest);
      SplitCons(p, JoinSpace(rest));
      SplitJoin(rest);
      assert parts == [p] + rest;
    }
  }
}
