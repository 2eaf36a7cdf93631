/** The mirror resolver: the metadata document of a textbook is requested from the mirrors
    s-file-1 .. s-file-4 one after another, and the first OK response with parsable JSON ends
    the search. */
module Mirrors {
  import opened Optional
  import opened JsValues
  import opened Text

  /** What one metadata request produced, as the script observes it. */
  datatype Probe =
    | NetErr               // fetch rejected
    | NotOk(status: int)   // a response whose `ok` flag is false
    | OkBadJson            // an OK response whose body response.json() could not parse
    | OkJson(body: JsValue)

  /** The mirror is given up on: the loop goes on to the next one. */
  predicate Failed(p: Probe) { !p.OkJson? }

  /** The number of mirrors the script knows about. */
  const MirrorCount: nat := 4

  /** The host of mirror `i` is "s-file-" + i + MirrorDomain. */
  const MirrorDomain := ".ykt.cbern.com.cn"

  /** Where a mirror keeps the metadata documents of textbooks. */
  const MetadataPath := "/zxx/ndrv2/resources/tch_material/details/"

  /** The metadata URL of textbook `id` on mirror number `i` (numbered from 1). */
  function MirrorUrl(i: nat, id: string): string
  {
    "https://s-file-" + Decimal(i) + MirrorTail(id)
  }

  /** Everything after the mirror number: the rest of the host, the path and the file name. */
  function MirrorTail(id: string): (t: string)
    ensures |t| > 0 && t[0] == '.'
  {
    var t := MirrorDomain + MetadataPath + id + ".json";
    assert t == MirrorDomain + (MetadataPath + id + ".json");
    t
  }

  /** Distinct mirrors are asked for distinct URLs, so no mirror is ever asked twice. */
  lemma MirrorUrlInjective(i: nat, j: nat, id: string)
    requires MirrorUrl(i, id) == MirrorUrl(j, id)
    ensures i == j
  {
    NumeralBetweenInjective("https://s-file-", i, j, MirrorTail(id));
  }

  /** The URLs of the first `n` mirrors, in the order they are tried. */
  function MirrorUrls(id: string, n: nat): (urls: seq<string>)
    ensures |urls| == n
    ensures forall k :: 0 <= k < n ==> urls[k] == MirrorUrl(k + 1, id)
  {
    seq(n, k requires 0 <= k < n => MirrorUrl(k + 1, id))
  }

  /** The outcome of probing: the parsed body of the first OK response with parsable JSON, if
      any, and the URLs that were requested, in order. */
  datatype Resolution = Resolution(found: Option<JsValue>, contacted: seq<string>)

  /** The reference fold over the mirrors: request each in turn, stop at the first that
      answers OK with parsable JSON. */
  function Resolve(urls: seq<string>, fetch: string -> Probe): Resolution
  {
    if |urls| == 0 then Resolution(None, [])
    else match fetch(urls[0])
      case OkJson(body) => Resolution(Some(body), [urls[0]])
      case _ => Shifted(Resolve(urls[1..], fetch), [urls[0]])
  }

  /** What the fold does: the requested URLs are a prefix of `urls`; every one of them but the
      last failed; the body found is what the last one answered; nothing is found exactly when
      every mirror fails, and then every mirror was requested. */
  lemma {:induction false} ResolveFirstOk(urls: seq<string>, fetch: string -> Probe)
    ensures var r := Resolve(urls, fetch);
      && |r.contacted| <= |urls| && r.contacted == urls[..|r.contacted|]
      && (forall j :: 0 <= j < |r.contacted| && (r.found.None? || j < |r.contacted| - 1)
            ==> Failed(fetch(urls[j])))
      && (r.found.Some? ==>
            |r.contacted| >= 1 && fetch(urls[|r.contacted| - 1]) == OkJson(r.found.value))
      && (r.found.None? <==> forall j :: 0 <= j < |urls| ==> Failed(fetch(urls[j])))
      && (r.found.None? ==> r.contacted == urls)
  {
    if |urls| > 0 && !fetch(urls[0]).OkJson? {
      ResolveFirstOk(urls[1..], fetch);
      assert forall j :: 1 <= j < |urls| ==> urls[1..][j - 1] == urls[j];
    }
  }

  /** The loop as the script writes it: request mirror after mirror and break at the first OK
      response; a thrown error, a non-OK status or an unparsable body moves on to the next. */
  method ProbeMirrors(urls: seq<string>, fetch: string -> Probe)
    returns (found: Option<JsValue>, contacted: seq<string>)
    ensures Resolution(found, contacted) == Resolve(urls, fetch)
  {
    found := None;
    contacted := [];
    var i := 0;
    while i < |urls|
      invariant 0 <= i <= |urls|
      invariant contacted == urls[..i]
      invariant forall j :: 0 <= j < i ==> Failed(fetch(urls[j]))
    {
      var probe := fetch(urls[i]);
      contacted := contacted + [urls[i]];
      if probe.OkJson? {
        found := Some(probe.body);
        ResolveStopsAt(urls, fetch, i);
        return;
      }
      i := i + 1;
    }
    ResolveAllFailed(urls, fetch);
  }

  /** `r` preceded by the requests in `before`. */
  function Shifted(r: Resolution, before: seq<string>): Resolution
  {
    Resolution(r.found, before + r.contacted)
  }

  /** The fold stops at the first mirror k answering OK with parsable JSON, having requested
      mirrors 0..k. */
  lemma {:induction false} ResolveStopsAt(urls: seq<string>, fetch: string -> Probe, k: nat)
    requires k < |urls| && fetch(urls[k]).OkJson?
    requires forall j :: 0 <= j < k ==> Failed(fetch(urls[j]))
    ensures Resolve(urls, fetch) == Resolution(Some(fetch(urls[k]).body), urls[..k + 1])
  {
    if k > 0 {
      assert forall j :: 0 <= j < k - 1 ==> urls[1..][j] == urls[j + 1];
      ResolveStopsAt(urls[1..], fetch, k - 1);
      assert [urls[0]] + urls[1..][..k] == urls[..k + 1];
    }
  }

  /** When every mirror fails, the fold finds nothing and has requested every mirror. */
  lemma {:induction false} ResolveAllFailed(urls: seq<string>, fetch: string -> Probe)
    requires forall j :: 0 <= j < |urls| ==> Failed(fetch(urls[j]))
    ensures Resolve(urls, fetch) == Resolution(None, urls)
  {
    if |urls| > 0 {
      assert forall j :: 0 <= j < |urls| - 1 ==> urls[1..][j] == urls[j + 1];
      ResolveAllFailed(urls[1..], fetch);
      assert [urls[0]] + urls[1..] == urls;
    }
  }

  /** An OK response from mirror k means no mirror after k is contacted. */
  lemma {:induction false} NoProbeAfterOk(urls: seq<string>, fetch: string -> Probe, k: nat)
    requires k < |urls| && fetch(urls[k]).OkJson?
    ensures Resolve(urls, fetch).found.Some?
    ensures |Resolve(urls, fetch).contacted| <= k + 1
  {
    if k > 0 && !fetch(urls[0]).OkJson? {
      assert urls[1..][k - 1] == urls[k];
      NoProbeAfterOk(urls[1..], fetch, k - 1);
    }
  }
}
