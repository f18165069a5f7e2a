/** The string work `client.js` does on server locations: the resource
    reference cut out of a history location (`create`, `update` and the
    source id of `transaction`), and the list of page links `search`
    builds from a paging link. Each regular expression is stated by where
    its greedy groups end. */
module Uris {
  import opened Util

  const HistoryMarker: string := "/_history/"
  const OffsetMarker: string := "_getpagesoffset="

  /** The last position below `n` where `p` occurs in `s`. */
  function LastIndexBelow(s: string, p: string, n: nat): (r: Option<nat>)
    ensures r.Some? ==> r.value < n && OccursAt(s, p, r.value)
    ensures r.Some? ==> forall k :: r.value < k < n ==> !OccursAt(s, p, k)
    ensures r.None? ==> forall k :: 0 <= k < n ==> !OccursAt(s, p, k)
  {
    if n == 0 then None
    else if OccursAt(s, p, n - 1) then Some(n - 1)
    else LastIndexBelow(s, p, n - 1)
  }

  /** The last position where `p` occurs in `s`. */
  function LastIndexOf(s: string, p: string): (r: Option<nat>)
    ensures r.Some? ==> OccursAt(s, p, r.value) && forall k :: r.value < k ==> !OccursAt(s, p, k)
    ensures r.None? ==> forall k :: !OccursAt(s, p, k)
  {
    LastIndexBelow(s, p, |s| + 1)
  }

  predicate NoSlash(s: string) {
    forall i :: 0 <= i < |s| ==> s[i] != '/'
  }

  /** `uri.match(/(.*)\/((.*)\/(.*)\/_history\/(.*))/)[2]`: the text after
      the second-last `/` in front of the last `/_history/`. Without a
      match the source reads a property of `null` and throws; that case is
      `None`. */
  function HistoryReference(uri: string): Option<string> {
    match LastIndexOf(uri, HistoryMarker)
    case None => None
    case Some(q) =>
      match LastIndexBelow(uri, "/", q)
      case None => None
      case Some(m) =>
        match LastIndexBelow(uri, "/", m)
        case None => None
        case Some(p) => Some(uri[p + 1..])
  }

  /** `location.match(/(.*)\/_history\/(.*)/)[1]`: everything in front of
      the last `/_history/`. */
  function SourceReference(location: string): Option<string> {
    match LastIndexOf(location, HistoryMarker)
    case None => None
    case Some(q) => Some(location[..q])
  }

  lemma SlashAt(s: string, k: int)
    requires 0 <= k < |s|
    ensures OccursAt(s, "/", k) <==> s[k] == '/'
  {
    if s[k] == '/' {
      assert s[k..k + 1] == [s[k]];
    }
  }

  /** The search from `n` downwards stops at `m` when nothing between
      matches. */
  lemma {:induction false} LastIndexBelowIs(s: string, p: string, n: nat, m: nat)
    requires m < n && OccursAt(s, p, m)
    requires forall k :: m < k < n ==> !OccursAt(s, p, k)
    ensures LastIndexBelow(s, p, n) == Some(m)
    decreases n
  {
    if n - 1 > m {
      LastIndexBelowIs(s, p, n - 1, m);
    }
  }

  /** In `x + "/_history/" + v` with no `/` in `v`, the marker in the middle
      is the last one. */
  lemma LastHistoryMarker(x: string, v: string)
    requires NoSlash(v)
    ensures LastIndexOf(x + HistoryMarker + v, HistoryMarker) == Some(|x|)
  {
    var s := x + HistoryMarker + v;
    var len := |HistoryMarker|;
    assert s[|x|..|x| + len] == HistoryMarker;
    assert OccursAt(s, HistoryMarker, |x|);
    forall k | |x| < k < |s| + 1
      ensures !OccursAt(s, HistoryMarker, k)
    {
      if k + len <= |s| {
        var e := k + len - 1;
        assert s[k..k + len][len - 1] == s[e];
        assert s[e] == v[e - |x| - len];
        assert HistoryMarker[len - 1] == '/';
      }
    }
    LastIndexBelowIs(s, HistoryMarker, |s| + 1, |x|);
  }

  /** The last `/` below `n` in a text whose part between `m` and `n` has
      none is at `m`. */
  lemma LastSlash(s: string, n: nat, m: nat)
    requires m < n <= |s| && s[m] == '/'
    requires forall k :: m < k < n ==> s[k] != '/'
    ensures LastIndexBelow(s, "/", n) == Some(m)
  {
    SlashAt(s, m);
    forall k | m < k < n ensures !OccursAt(s, "/", k) {
      SlashAt(s, k);
    }
    LastIndexBelowIs(s, "/", n, m);
  }

  /** A location the server returns, `base/Type/id/_history/version`, gives
      back `Type/id/_history/version`, whatever `base` is. */
  lemma HistoryReferenceOf(base: string, rType: string, id: string, version: string)
    requires NoSlash(rType) && NoSlash(id) && NoSlash(version)
    ensures HistoryReference(base + "/" + rType + "/" + id + HistoryMarker + version)
         == Some(rType + "/" + id + HistoryMarker + version)
  {
    var x := base + "/" + rType + "/" + id;
    var s := x + HistoryMarker + version;
    assert s == base + "/" + rType + "/" + id + HistoryMarker + version;
    LastHistoryMarker(x, version);
    HistorySlashes(base, rType, id, s);
    assert s[|base| + 1..] == rType + "/" + id + HistoryMarker + version;
  }

  lemma HistorySlashes(base: string, rType: string, id: string, s: string)
    requires NoSlash(rType) && NoSlash(id)
    requires |base + "/" + rType + "/" + id| <= |s| && s[..|base + "/" + rType + "/" + id|] == base + "/" + rType + "/" + id
    ensures LastIndexBelow(s, "/", |base + "/" + rType + "/" + id|) == Some(|base| + 1 + |rType|)
    ensures LastIndexBelow(s, "/", |base| + 1 + |rType|) == Some(|base|)
  {
    var x := base + "/" + rType + "/" + id;
    var m := |base| + 1 + |rType|;
    var p := |base|;
    assert s[m] == x[m] == '/';
    assert s[p] == x[p] == '/';
    forall k | m < k < |x| ensures s[k] != '/' {
      assert s[k] == x[k] == id[k - m - 1];
    }
    LastSlash(s, |x|, m);
    forall k | p < k < m ensures s[k] != '/' {
      assert s[k] == x[k] == rType[k - p - 1];
    }
    LastSlash(s, m, p);
  }

  /** A transaction response location `Binary/id/_history/version` gives
      back `Binary/id`. */
  lemma SourceReferenceOf(x: string, version: string)
    requires NoSlash(version)
    ensures SourceReference(x + HistoryMarker + version) == Some(x)
  {
    LastHistoryMarker(x, version);
    assert (x + HistoryMarker + version)[..|x|] == x;
  }

  // ---------------------------------------------------------------------
  // Page links

  predicate IsDigit(c: char) {
    '0' <= c <= '9'
  }

  /** The offset marker at `k`, followed by at least one digit. */
  predicate OffsetAt(s: string, k: int) {
    OccursAt(s, OffsetMarker, k) && k + |OffsetMarker| < |s| && IsDigit(s[k + |OffsetMarker|])
  }

  function LastOffsetBelow(s: string, n: nat): (r: Option<nat>)
    ensures r.Some? ==> r.value < n && OffsetAt(s, r.value)
    ensures r.Some? ==> forall k :: r.value < k < n ==> !OffsetAt(s, k)
    ensures r.None? ==> forall k :: 0 <= k < n ==> !OffsetAt(s, k)
  {
    if n == 0 then None
    else if OffsetAt(s, n - 1) then Some(n - 1)
    else LastOffsetBelow(s, n - 1)
  }

  /** The end of the run of digits starting at `from`. */
  function DigitsEnd(s: string, from: nat): (r: nat)
    requires from <= |s|
    ensures from <= r <= |s|
    ensures forall i :: from <= i < r ==> IsDigit(s[i])
    ensures r == |s| || !IsDigit(s[r])
    decreases |s| - from
  {
    if from < |s| && IsDigit(s[from]) then DigitsEnd(s, from + 1) else from
  }

  /** `url.match(/(.*)_getpagesoffset=(\d+)(.*)/)`: groups 1 and 3, the text
      in front of the last marker that is followed by a digit, and the text
      after that marker's digits. */
  function SplitLink(url: string): Option<(string, string)> {
    match LastOffsetBelow(url, |url| + 1)
    case None => None
    case Some(q) => Some((url[..q], url[DigitsEnd(url, q + |OffsetMarker|)..]))
  }

  function DigitChar(d: nat): char
    requires d < 10
  {
    ('0' as int + d) as char
  }

  /** A number in decimal, as JavaScript turns it into a string. */
  function Decimal(n: nat): (r: string)
    ensures |r| > 0 && forall i :: 0 <= i < |r| ==> IsDigit(r[i])
  {
    if n < 10 then [DigitChar(n)] else Decimal(n / 10) + [DigitChar(n % 10)]
  }

  /** The link to the page at `offset`. */
  function PageUrl(prefix: string, offset: nat, suffix: string): string {
    prefix + OffsetMarker + Decimal(offset) + suffix
  }

  /** The page links `search` builds from the response's `next` link and
      its `total`: `Math.floor(total/50)+2` links, at offsets 50, 100, ... .
      Without a match the source throws; that case is `None`. */
  method PageQueries(link: string, total: nat) returns (queries: Option<seq<string>>)
    ensures SplitLink(link).None? <==> queries.None?
    ensures SplitLink(link).Some? ==> queries.Some? && |queries.value| == total / 50 + 2
    ensures SplitLink(link).Some? ==> forall k :: 0 <= k < |queries.value| ==>
      queries.value[k] == PageUrl(SplitLink(link).value.0, 50 * (k + 1), SplitLink(link).value.1)
  {
    var split := SplitLink(link);
    if split.None? {
      return None;
    }
    var (prefix, suffix) := split.value;
    var numQueries := total / 50 + 2;
    var qs: seq<string> := [];
    var page := 1;
    while page <= numQueries
      invariant 1 <= page <= numQueries + 1
      invariant |qs| == page - 1
      invariant forall k :: 0 <= k < |qs| ==> qs[k] == PageUrl(prefix, 50 * (k + 1), suffix)
    {
      qs := qs + [prefix + OffsetMarker + Decimal(50 * page) + suffix];
      page := page + 1;
    }
    return Some(qs);
  }

  /** No offset marker followed by a digit anywhere in `s`. */
  predicate NoOffset(s: string) {
    forall k :: 0 <= k < |s| ==> !OffsetAt(s, k)
  }

  /** What a successful split leaves: the suffix neither starts with a
      digit nor holds another marker followed by a digit. */
  lemma SplitLinkParts(url: string)
    requires SplitLink(url).Some?
    ensures var (pre, suf) := SplitLink(url).value;
      (suf == [] || !IsDigit(suf[0])) && NoOffset(suf)
  {
    var q := LastOffsetBelow(url, |url| + 1).value;
    var j := DigitsEnd(url, q + |OffsetMarker|);
    var suf := url[j..];
    forall k | OffsetAt(suf, k) ensures false {
      assert url[j + k..j + k + |OffsetMarker|] == suf[k..k + |OffsetMarker|];
      assert url[j + k + |OffsetMarker|] == suf[k + |OffsetMarker|];
      assert OffsetAt(url, j + k);
    }
  }

  /** The marker has its `_` only in front. */
  lemma MarkerUnderscore()
    ensures OffsetMarker[0] == '_'
    ensures forall i :: 1 <= i < |OffsetMarker| ==> OffsetMarker[i] != '_'
  {
    assert OffsetMarker[1..] == "getpagesoffset=";
  }

  /** In a link built from `pre`, the marker, digits and a suffix without an
      offset, no offset starts after `pre`. */
  lemma NoOffsetAfterPrefix(pre: string, d: string, suf: string, k: nat)
    requires forall i :: 0 <= i < |d| ==> IsDigit(d[i])
    requires NoOffset(suf)
    requires |pre| < k
    ensures !OffsetAt(pre + OffsetMarker + d + suf, k)
  {
    var u := pre + OffsetMarker + d + suf;
    var m := |OffsetMarker|;
    var start := |pre| + m;
    var end := start + |d|;
    MarkerUnderscore();
    if k + m < |u| {
      assert u[k..k + m][0] == u[k];
      if k < start {
        assert u[k] == OffsetMarker[k - |pre|];
      } else if k < end {
        assert u[k] == d[k - start];
      } else {
        assert u[k..k + m] == suf[k - end..k - end + m];
        assert u[k + m] == suf[k - end + m];
        assert OffsetAt(u, k) == OffsetAt(suf, k - end);
      }
    }
  }

  /** In a link built from `pre`, the marker, digits and a suffix without an
      offset, the last offset is the one right after `pre`. */
  lemma LastOffsetAfterPrefix(pre: string, d: string, suf: string)
    requires |d| > 0 && forall i :: 0 <= i < |d| ==> IsDigit(d[i])
    requires NoOffset(suf)
    ensures var u := pre + OffsetMarker + d + suf;
      LastOffsetBelow(u, |u| + 1) == Some(|pre|)
  {
    var u := pre + OffsetMarker + d + suf;
    var m := |OffsetMarker|;
    assert u[|pre|..|pre| + m] == OffsetMarker;
    assert u[|pre| + m] == d[0];
    assert OffsetAt(u, |pre|);
    forall k | |pre| < k <= |u| ensures !OffsetAt(u, k) {
      NoOffsetAfterPrefix(pre, d, suf, k);
    }
    LastOffsetBelowIs(u, |u| + 1, |pre|);
  }

  /** Every link `PageQueries` builds splits back into the same prefix and
      suffix, so every page link addresses the same search. */
  lemma PageUrlSplits(link: string, offset: nat)
    requires SplitLink(link).Some?
    ensures var (pre, suf) := SplitLink(link).value;
      SplitLink(PageUrl(pre, offset, suf)) == Some((pre, suf))
  {
    var (pre, suf) := SplitLink(link).value;
    SplitLinkParts(link);
    var d := Decimal(offset);
    var u := pre + OffsetMarker + d + suf;
    assert PageUrl(pre, offset, suf) == u;
    LastOffsetAfterPrefix(pre, d, suf);
    var start := |pre| + |OffsetMarker|;
    var end := start + |d|;
    assert u[start..end] == d;
    DigitsEndOver(u, start, end);
    assert u[..|pre|] == pre;
    assert u[end..] == suf;
  }

  lemma {:induction false} LastOffsetBelowIs(s: string, n: nat, m: nat)
    requires m < n && OffsetAt(s, m)
    requires forall k :: m < k < n ==> !OffsetAt(s, k)
    ensures LastOffsetBelow(s, n) == Some(m)
    decreases n
  {
    if n - 1 > m {
      LastOffsetBelowIs(s, n - 1, m);
    }
  }

  lemma {:induction false} DigitsEndOver(s: string, from: nat, end: nat)
    requires from <= end <= |s|
    requires forall i :: from <= i < end ==> IsDigit(s[i])
    requires end == |s| || !IsDigit(s[end])
    ensures DigitsEnd(s, from) == end
    decreases end - from
  {
    if from < end {
      DigitsEndOver(s, from + 1, end);
    }
  }
}
