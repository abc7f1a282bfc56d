/** The same-origin reverse proxy of the top-level application: rewriting
    of `Location` redirects from the vendor's origins to the local proxy
    paths, the headers forwarded to the vendor (a Python dict, so a repeated
    name keeps its first position and its last value), and the headers
    passed back to the browser. */
module Proxy {
  import opened Outcomes

  /** `str.lower()` on ASCII letters; other characters are kept. */
  function LowerChar(c: char): char
  {
    if 'A' <= c <= 'Z' then (c as int + 32) as char else c
  }

  function Lower(s: string): (r: string)
    ensures |r| == |s|
    ensures forall i :: 0 <= i < |s| ==> r[i] == LowerChar(s[i])
  {
    seq(|s|, i requires 0 <= i < |s| => LowerChar(s[i]))
  }

  lemma LowerIdempotent(s: string)
    ensures Lower(Lower(s)) == Lower(s)
  {
    assert forall i :: 0 <= i < |s| ==> LowerChar(LowerChar(s[i])) == LowerChar(s[i]);
  }

  /** Hop-by-hop headers, which a proxy never passes on. */
  const HopHeaders: set<string> := {
    "connection", "keep-alive", "proxy-authenticate", "proxy-authorization",
    "te", "trailers", "transfer-encoding", "upgrade"
  }

  predicate IsHop(name: string)
  {
    Lower(name) in HopHeaders
  }

  predicate StartsWith(s: string, p: string)
  {
    |p| <= |s| && s[..|p|] == p
  }

  /** Vendor origins and the local paths they are served under, tried in
      this order. */
  const LocationMaps: seq<(string, string)> := [
    ("https://10.0.18.34:9091", "/vendor"),
    ("http://10.0.18.34:9091", "/vendor"),
    ("http://127.0.0.1:8051", "/vendor8091"),
    ("http://10.0.18.34:8091", "/vendor8091"),
    ("https://10.0.0.100:7051", "/vendor8091"),
    ("http://10.0.0.100:7051", "/vendor8091"),
    ("https://10.0.0.100:6051", "/vendor8091"),
    ("http://10.0.0.100:6051", "/vendor8091")
  ]

  /** Index of the first origin, from `from` on, that `loc` starts with. */
  function FirstMatch(loc: string, from: nat): (r: Option<nat>)
    requires from <= |LocationMaps|
    ensures r.None? <==> forall j :: from <= j < |LocationMaps| ==> !StartsWith(loc, LocationMaps[j].0)
    ensures r.Some? ==>
      && from <= r.value < |LocationMaps|
      && StartsWith(loc, LocationMaps[r.value].0)
      && (forall j :: from <= j < r.value ==> !StartsWith(loc, LocationMaps[j].0))
    decreases |LocationMaps| - from
  {
    if from == |LocationMaps| then None
    else if StartsWith(loc, LocationMaps[from].0) then Some(from)
    else FirstMatch(loc, from + 1)
  }

  /** `_rewrite_location`: an empty value is returned as is; otherwise the
      first origin `loc` starts with is replaced by its local path. */
  function RewriteLocation(loc: string): (r: string)
    ensures loc == "" ==> r == ""
    ensures (forall j :: 0 <= j < |LocationMaps| ==> !StartsWith(loc, LocationMaps[j].0)) ==> r == loc
  {
    if loc == "" then loc
    else match FirstMatch(loc, 0)
      case None => loc
      case Some(j) => LocationMaps[j].1 + loc[|LocationMaps[j].0|..]
  }

  /** Every origin starts with `h` and every local path with `/`. */
  lemma MapsShape()
    ensures forall j :: 0 <= j < |LocationMaps| ==> |LocationMaps[j].0| > 0 && LocationMaps[j].0[0] == 'h'
    ensures forall j :: 0 <= j < |LocationMaps| ==> |LocationMaps[j].1| > 0 && LocationMaps[j].1[0] == '/'
  {
  }

  /** A rewritten location keeps the path after the origin, and no vendor
      origin is left at the head of any result. */
  lemma {:induction false} RewriteLocationReplacesOrigin(loc: string)
    ensures RewriteLocation(loc) != loc ==>
      exists j :: 0 <= j < |LocationMaps| && StartsWith(loc, LocationMaps[j].0)
        && RewriteLocation(loc) == LocationMaps[j].1 + loc[|LocationMaps[j].0|..]
    ensures forall j :: 0 <= j < |LocationMaps| ==> !StartsWith(RewriteLocation(loc), LocationMaps[j].0)
  {
    MapsShape();
    var r := RewriteLocation(loc);
    if loc != "" {
      match FirstMatch(loc, 0)
      case None =>
      case Some(j) =>
        assert r[0] == '/';
        forall j' | 0 <= j' < |LocationMaps|
          ensures !StartsWith(r, LocationMaps[j'].0)
        {
          assert LocationMaps[j'].0[0] == 'h';
        }
    }
  }

  /** No origin is a prefix of another, so at most one ever matches and the
      order of the table does not matter. */
  lemma OriginsDisjoint(loc: string, i: nat, j: nat)
    requires i < j < |LocationMaps|
    ensures !(StartsWith(loc, LocationMaps[i].0) && StartsWith(loc, LocationMaps[j].0))
  {
    if StartsWith(loc, LocationMaps[i].0) && StartsWith(loc, LocationMaps[j].0) {
      var a := LocationMaps[i].0;
      var b := LocationMaps[j].0;
      var m := if |a| <= |b| then |a| else |b|;
      assert a[..m] == loc[..m] == b[..m];
      OriginsNotPrefixes(i, j);
      assert false;
    }
  }

  lemma OriginsNotPrefixes(i: nat, j: nat)
    requires i < j < |LocationMaps|
    ensures var a := LocationMaps[i].0; var b := LocationMaps[j].0;
      var m := if |a| <= |b| then |a| else |b|;
      a[..m] != b[..m]
  {
    var a := LocationMaps[i].0;
    var b := LocationMaps[j].0;
    var m := if |a| <= |b| then |a| else |b|;
    var k := Differ(i, j);
    assert a[..m][k] != b[..m][k];
  }

  /** A position below both lengths where origins `i` and `j` differ. */
  function Differ(i: nat, j: nat): (k: nat)
    requires i < j < |LocationMaps|
    ensures k < |LocationMaps[i].0| && k < |LocationMaps[j].0|
    ensures LocationMaps[i].0[k] != LocationMaps[j].0[k]
  {
    var a := LocationMaps[i].0;
    var b := LocationMaps[j].0;
    if a[4] != b[4] then 4
    else if a[8] != b[8] then 8
    else if a[12] != b[12] then 12
    else if a[13] != b[13] then 13
    else if a[18] != b[18] then 18
    else 19
  }

  /** Rewriting a rewritten location changes nothing. */
  lemma {:induction false} RewriteLocationIdempotent(loc: string)
    ensures RewriteLocation(RewriteLocation(loc)) == RewriteLocation(loc)
  {
    RewriteLocationReplacesOrigin(loc);
  }

  type Header = (string, string)

  /** Value stored under exactly the name `k` (first entry with that name). */
  function Lookup(d: seq<Header>, k: string): (r: Option<string>)
    ensures r.None? <==> forall i :: 0 <= i < |d| ==> d[i].0 != k
  {
    if |d| == 0 then None
    else if d[0].0 == k then Some(d[0].1)
    else Lookup(d[1..], k)
  }

  /** `d[k] = v` on an insertion-ordered dict: the entry named `k` is
      overwritten in place, or a new entry goes at the end. */
  function DictSet(d: seq<Header>, k: string, v: string): (r: seq<Header>)
    ensures Lookup(r, k) == Some(v)
    ensures forall k' :: k' != k ==> Lookup(r, k') == Lookup(d, k')
    ensures Lookup(d, k).None? ==> r == d + [(k, v)]
    ensures Lookup(d, k).Some? ==> |r| == |d|
    ensures |r| >= |d| && forall i :: 0 <= i < |d| ==> r[i].0 == d[i].0
  {
    if |d| == 0 then [(k, v)]
    else if d[0].0 == k then [(k, v)] + d[1..]
    else [d[0]] + DictSet(d[1..], k, v)
  }

  predicate UniqueNames(d: seq<Header>)
  {
    forall i, j :: 0 <= i < j < |d| ==> d[i].0 != d[j].0
  }

  lemma {:induction false} DictSetKeepsNames(d: seq<Header>, k: string, v: string)
    ensures forall i :: 0 <= i < |DictSet(d, k, v)| ==> DictSet(d, k, v)[i].0 == k || exists j :: 0 <= j < |d| && d[j].0 == DictSet(d, k, v)[i].0
    ensures UniqueNames(d) ==> UniqueNames(DictSet(d, k, v))
  {
    var r := DictSet(d, k, v);
    forall i | 0 <= i < |r|
      ensures r[i].0 == k || exists j :: 0 <= j < |d| && d[j].0 == r[i].0
    {
      if i < |d| {
        assert d[i].0 == r[i].0;
      } else {
        assert r == d + [(k, v)];
      }
    }
    if UniqueNames(d) {
      forall i, j | 0 <= i < j < |r|
        ensures r[i].0 != r[j].0
      {
        if j >= |d| {
          assert r == d + [(k, v)] && r[j].0 == k;
          assert d[i].0 != k;
        }
      }
    }
  }

  /** Request headers never forwarded: hop-by-hop ones, `Host`, and the
      client's `Accept-Encoding`. */
  predicate RequestDropped(name: string)
  {
    IsHop(name) || Lower(name) == "host" || Lower(name) == "accept-encoding"
  }

  /** The forwarding loop over the incoming headers, into dict `d`. */
  function CollectForwarded(hs: seq<Header>, d: seq<Header>): (r: seq<Header>)
    decreases |hs|
  {
    if |hs| == 0 then d
    else
      var d' := if RequestDropped(hs[0].0) then d else DictSet(d, hs[0].0, hs[0].1);
      CollectForwarded(hs[1..], d')
  }

  /** Value of the last header in `hs` named exactly `k`. */
  function LastValue(hs: seq<Header>, k: string): (r: Option<string>)
    ensures r.None? <==> forall i :: 0 <= i < |hs| ==> hs[i].0 != k
    ensures r.Some? ==> exists i :: 0 <= i < |hs| && hs[i] == (k, r.value)
    decreases |hs|
  {
    if |hs| == 0 then None
    else
      var rest := LastValue(hs[1..], k);
      if rest.Some? then
        ghost var i :| 0 <= i < |hs[1..]| && hs[1..][i] == (k, rest.value);
        assert hs[i + 1] == (k, rest.value);
        rest
      else if hs[0].0 == k then Some(hs[0].1)
      else None
  }

  lemma {:induction false} CollectForwardedLookup(hs: seq<Header>, d: seq<Header>, k: string)
    ensures RequestDropped(k) ==> Lookup(CollectForwarded(hs, d), k) == Lookup(d, k)
    ensures !RequestDropped(k) ==>
      Lookup(CollectForwarded(hs, d), k) == (if LastValue(hs, k).Some? then LastValue(hs, k) else Lookup(d, k))
    decreases |hs|
  {
    if |hs| > 0 {
      var d' := if RequestDropped(hs[0].0) then d else DictSet(d, hs[0].0, hs[0].1);
      CollectForwardedLookup(hs[1..], d', k);
    }
  }

  lemma {:induction false} CollectForwardedNames(hs: seq<Header>, d: seq<Header>)
    requires UniqueNames(d)
    requires forall i :: 0 <= i < |d| ==> !RequestDropped(d[i].0)
    ensures UniqueNames(CollectForwarded(hs, d))
    ensures forall i :: 0 <= i < |CollectForwarded(hs, d)| ==> !RequestDropped(CollectForwarded(hs, d)[i].0)
    decreases |hs|
  {
    if |hs| > 0 {
      var d' := if RequestDropped(hs[0].0) then d else DictSet(d, hs[0].0, hs[0].1);
      if !RequestDropped(hs[0].0) {
        DictSetKeepsNames(d, hs[0].0, hs[0].1);
      }
      CollectForwardedNames(hs[1..], d');
    }
  }

  /** Headers sent to the vendor: the kept incoming headers, then
      `Accept-Encoding: identity`. */
  function ForwardRequestHeaders(hs: seq<Header>): (r: seq<Header>)
    ensures |r| > 0 && r[|r| - 1] == ("Accept-Encoding", "identity")
  {
    var d := CollectForwarded(hs, []);
    AcceptEncodingDropped();
    CollectForwardedLookup(hs, [], "Accept-Encoding");
    assert Lookup(d, "Accept-Encoding").None?;
    DictSet(d, "Accept-Encoding", "identity")
  }

  /** The dict built from the client's headers, before `Accept-Encoding`
      is set: it has no such entry, so setting it appends. */
  lemma ForwardAppendsEncoding(hs: seq<Header>)
    ensures ForwardRequestHeaders(hs) == CollectForwarded(hs, []) + [("Accept-Encoding", "identity")]
  {
    AcceptEncodingDropped();
    CollectForwardedLookup(hs, [], "Accept-Encoding");
    assert Lookup(CollectForwarded(hs, []), "Accept-Encoding").None?;
  }

  lemma AcceptEncodingDropped()
    ensures RequestDropped("Accept-Encoding")
  {
    assert Lower("Accept-Encoding") == "accept-encoding";
  }

  /** The forwarded dict holds each kept name once, no dropped name except
      the final `Accept-Encoding: identity`. */
  lemma ForwardRequestHeadersNames(hs: seq<Header>)
    ensures var r := ForwardRequestHeaders(hs);
      && UniqueNames(r)
      && (forall i :: 0 <= i < |r| - 1 ==> !RequestDropped(r[i].0))
  {
    var d := CollectForwarded(hs, []);
    CollectForwardedNames(hs, []);
    ForwardAppendsEncoding(hs);
    DictSetKeepsNames(d, "Accept-Encoding", "identity");
  }

  /** Each kept name carries the last value the client sent for it, the
      encoding is `identity`, and no other dropped name is present. */
  lemma ForwardRequestHeadersValues(hs: seq<Header>, k: string)
    ensures var r := ForwardRequestHeaders(hs);
      && Lookup(r, "Accept-Encoding") == Some("identity")
      && (!RequestDropped(k) ==> Lookup(r, k) == LastValue(hs, k))
      && (RequestDropped(k) && k != "Accept-Encoding" ==> Lookup(r, k).None?)
  {
    CollectForwardedLookup(hs, [], "Accept-Encoding");
    CollectForwardedLookup(hs, [], k);
  }

  /** Response headers never passed back: hop-by-hop ones, the framing
      blockers, and the encoding and length the proxy no longer matches. */
  predicate ResponseDropped(name: string)
  {
    || IsHop(name)
    || Lower(name) == "x-frame-options" || Lower(name) == "content-security-policy"
    || Lower(name) == "content-encoding" || Lower(name) == "content-length"
  }

  /** A passed-back header, its value rewritten when it is `Location`. */
  function PassBack(h: Header): Header
  {
    if Lower(h.0) == "location" then (h.0, RewriteLocation(h.1)) else h
  }

  /** The response-header loop, from position `from` on. */
  function FilterResponseHeaders(hs: seq<Header>, from: nat): (r: seq<Header>)
    requires from <= |hs|
    ensures |r| <= |hs| - from
    ensures forall i :: 0 <= i < |r| ==> !ResponseDropped(r[i].0)
    decreases |hs| - from
  {
    if from == |hs| then []
    else if ResponseDropped(hs[from].0) then FilterResponseHeaders(hs, from + 1)
    else [PassBack(hs[from])] + FilterResponseHeaders(hs, from + 1)
  }

  /** Positions, from `from` on, of the headers that are passed back. */
  function KeptHeaders(hs: seq<Header>, from: nat): (ks: seq<nat>)
    requires from <= |hs|
    ensures forall j :: 0 <= j < |ks| ==> from <= ks[j] < |hs| && !ResponseDropped(hs[ks[j]].0)
    ensures forall i :: from <= i < |hs| && !ResponseDropped(hs[i].0) ==> i in ks
    ensures forall j, j' :: 0 <= j < j' < |ks| ==> ks[j] < ks[j']
    decreases |hs| - from
  {
    if from == |hs| then []
    else if ResponseDropped(hs[from].0) then KeptHeaders(hs, from + 1)
    else [from] + KeptHeaders(hs, from + 1)
  }

  /** The browser gets exactly the headers that are not dropped, in their
      original order, names untouched, only `Location` values rewritten. */
  lemma FilterResponseKeepsExactly(hs: seq<Header>, from: nat)
    requires from <= |hs|
    ensures var r := FilterResponseHeaders(hs, from); var ks := KeptHeaders(hs, from);
      && |r| == |ks|
      && (forall j :: 0 <= j < |ks| ==> r[j].0 == hs[ks[j]].0)
      && (forall j :: 0 <= j < |ks| && Lower(hs[ks[j]].0) != "location" ==> r[j] == hs[ks[j]])
      && (forall j :: 0 <= j < |ks| && Lower(hs[ks[j]].0) == "location" ==> r[j].1 == RewriteLocation(hs[ks[j]].1))
  {
    FilterResponseIsPassBack(hs, from);
  }

  lemma {:induction false} FilterResponseIsPassBack(hs: seq<Header>, from: nat)
    requires from <= |hs|
    ensures |FilterResponseHeaders(hs, from)| == |KeptHeaders(hs, from)|
    ensures forall j :: 0 <= j < |KeptHeaders(hs, from)| ==>
      FilterResponseHeaders(hs, from)[j] == PassBack(hs[KeptHeaders(hs, from)[j]])
    decreases |hs| - from
  {
    if from < |hs| {
      FilterResponseIsPassBack(hs, from + 1);
      var rest := FilterResponseHeaders(hs, from + 1);
      var ks' := KeptHeaders(hs, from + 1);
      var r := FilterResponseHeaders(hs, from);
      var ks := KeptHeaders(hs, from);
      if !ResponseDropped(hs[from].0) {
        assert r == [PassBack(hs[from])] + rest && ks == [from] + ks';
        forall j | 0 <= j < |ks|
          ensures r[j] == PassBack(hs[ks[j]])
        {
          if j > 0 {
            assert r[j] == rest[j - 1] && ks[j] == ks'[j - 1];
          }
        }
      } else {
        assert r == rest && ks == ks';
      }
    }
  }

  /** Filtering already filtered headers changes nothing. */
  lemma {:induction false} FilterResponseIdempotent(hs: seq<Header>)
    ensures FilterResponseHeaders(FilterResponseHeaders(hs, 0), 0) == FilterResponseHeaders(hs, 0)
  {
    FilterSuffixIdempotent(hs, 0);
  }

  lemma {:induction false} FilterSuffixIdempotent(hs: seq<Header>, from: nat)
    requires from <= |hs|
    ensures FilterResponseHeaders(FilterResponseHeaders(hs, from), 0) == FilterResponseHeaders(hs, from)
    decreases |hs| - from
  {
    if from < |hs| {
      FilterSuffixIdempotent(hs, from + 1);
      var rest := FilterResponseHeaders(hs, from + 1);
      if !ResponseDropped(hs[from].0) {
        var h := PassBack(hs[from]);
        var r := [h] + rest;
        if Lower(hs[from].0) == "location" {
          RewriteLocationIdempotent(hs[from].1);
        }
        assert PassBack(h) == h;
        FilterShift(r, rest);
      }
    }
  }

  /** Filtering `[h] + rest` from position 1 is filtering `rest`. */
  lemma {:induction false} FilterShift(r: seq<Header>, rest: seq<Header>)
    requires |r| > 0 && r[1..] == rest
    ensures FilterResponseHeaders(r, 1) == FilterResponseHeaders(rest, 0)
  {
    FilterFromOffset(r, rest, 1);
  }

  lemma {:induction false} FilterFromOffset(r: seq<Header>, rest: seq<Header>, from: nat)
    requires 1 <= from <= |r| && r[1..] == rest
    ensures FilterResponseHeaders(r, from) == FilterResponseHeaders(rest, from - 1)
    decreases |r| - from
  {
    if from < |r| {
      assert r[from] == rest[from - 1];
      FilterFromOffset(r, rest, from + 1);
    }
  }
}
